/**
 * Projects: the name a composer's workspace folder gives it, the grouping of
 * composers by that name (an insertion-ordered JavaScript `Map`), the ranking
 * of projects by their most recent composer, and the default project.
 */
module Projects {
  import opened Wrappers
  import opened Types
  import opened JsString
  import opened StableSort

  const UNKNOWN_PROJECT := "unknown-project"

  predicate IsPathSeparator(c: char) {
    c == '/' || c == '\\'
  }

  /** The last element of `folder.split(/[\/\\]/)`: what follows the last separator. */
  function LastSegment(folder: string): (r: string)
    ensures EndsWith(folder, r)
    ensures forall i :: 0 <= i < |r| ==> !IsPathSeparator(r[i])
    ensures |r| < |folder| ==> IsPathSeparator(folder[|folder| - |r| - 1])
  {
    if folder == [] || IsPathSeparator(folder[|folder| - 1]) then ""
    else
      var init := folder[..|folder| - 1];
      var r := LastSegment(init) + [folder[|folder| - 1]];
      assert folder[|folder| - |r|..] == init[|init| - (|r| - 1)..] + [folder[|folder| - 1]];
      r
  }

  /** `getProjectName`: the folder's last path segment, or `unknown-project` without a folder. */
  function ProjectName(c: WorkspaceComposer): (r: string)
    ensures (c.workspaceFolder.None? || c.workspaceFolder.value == "") ==> r == UNKNOWN_PROJECT
    ensures c.workspaceFolder.Some? && c.workspaceFolder.value != "" ==>
      var folder := c.workspaceFolder.value;
      && EndsWith(folder, r)
      && (forall i :: 0 <= i < |r| ==> !IsPathSeparator(r[i]))
      && (|r| < |folder| ==> IsPathSeparator(folder[|folder| - |r| - 1]))
  {
    match c.workspaceFolder
    case Some(folder) => if folder != "" then LastSegment(folder) else UNKNOWN_PROJECT
    case None => UNKNOWN_PROJECT
  }

  /** `c.lastUpdatedAt || c.createdAt`: how recent a composer is. */
  function Recency(c: WorkspaceComposer): int {
    if c.chat.lastUpdatedAt != 0 then c.chat.lastUpdatedAt else c.chat.createdAt
  }

  /** `c.lastUpdatedAt || 0`: the key of the collection order. */
  function LastUpdated(c: WorkspaceComposer): int {
    c.chat.lastUpdatedAt
  }

  /** The order `getComposers` returns: descending by last update, ties in scan order. */
  function CollectedOrder(cs: seq<WorkspaceComposer>): (r: seq<WorkspaceComposer>)
    ensures SortedDesc(r, LastUpdated)
    ensures multiset(r) == multiset(cs) && |r| == |cs|
    ensures forall v :: WithKey(r, LastUpdated, v) == WithKey(cs, LastUpdated, v)
  {
    SortDescSorted(cs, LastUpdated);
    SortDescPermutes(cs, LastUpdated);
    forall v ensures WithKey(SortDesc(cs, LastUpdated), LastUpdated, v) == WithKey(cs, LastUpdated, v) {
      SortDescStable(cs, LastUpdated, v);
    }
    SortDesc(cs, LastUpdated)
  }

  /** A project's composers, most recent first, ties in their order in the group. */
  function ByRecency(cs: seq<WorkspaceComposer>): (r: seq<WorkspaceComposer>)
    ensures SortedDesc(r, Recency)
    ensures multiset(r) == multiset(cs) && |r| == |cs|
    ensures forall v :: WithKey(r, Recency, v) == WithKey(cs, Recency, v)
  {
    SortDescSorted(cs, Recency);
    SortDescPermutes(cs, Recency);
    forall v ensures WithKey(SortDesc(cs, Recency), Recency, v) == WithKey(cs, Recency, v) {
      SortDescStable(cs, Recency, v);
    }
    SortDesc(cs, Recency)
  }

  // ---------------------------------------------------------------------------
  // Grouping

  /** The composers of `cs` whose project is `project`, in their order in `cs`. */
  function Bucket(cs: seq<WorkspaceComposer>, project: string): seq<WorkspaceComposer> {
    if cs == [] then []
    else
      var last := cs[|cs| - 1];
      Bucket(cs[..|cs| - 1], project) + (if ProjectName(last) == project then [last] else [])
  }

  /** The distinct project names of `cs` in order of first appearance. */
  function ProjectOrder(cs: seq<WorkspaceComposer>): seq<string> {
    if cs == [] then []
    else
      var order := ProjectOrder(cs[..|cs| - 1]);
      var project := ProjectName(cs[|cs| - 1]);
      if project in order then order else order + [project]
  }

  /** A JavaScript `Map` from project name to composers: its keys in insertion order, and its entries. */
  datatype ProjectMap = ProjectMap(order: seq<string>, buckets: map<string, seq<WorkspaceComposer>>)

  ghost predicate Distinct(keys: seq<string>) {
    forall i, j :: 0 <= i < j < |keys| ==> keys[i] != keys[j]
  }

  /** What every map built by grouping satisfies: one key per entry, no empty entry. */
  ghost predicate WellFormed(pm: ProjectMap) {
    && Distinct(pm.order)
    && (forall k :: k in pm.buckets <==> k in pm.order)
    && (forall k :: k in pm.buckets ==> pm.buckets[k] != [])
  }

  /** `groupComposersByProject`: push every composer into the entry of its project. */
  method GroupComposersByProject(composers: seq<WorkspaceComposer>) returns (projects: ProjectMap)
    ensures projects.order == ProjectOrder(composers)
    ensures forall k :: k in projects.buckets <==> k in projects.order
    ensures forall k :: k in projects.buckets ==> projects.buckets[k] == Bucket(composers, k)
    ensures WellFormed(projects)
  {
    var order: seq<string> := [];
    var buckets: map<string, seq<WorkspaceComposer>> := map[];
    for i := 0 to |composers|
      invariant order == ProjectOrder(composers[..i])
      invariant forall k :: k in buckets <==> k in order
      invariant forall k :: k in buckets ==> buckets[k] == Bucket(composers[..i], k)
    {
      var project := ProjectName(composers[i]);
      assert composers[..i + 1][..i] == composers[..i];
      assert composers[..i + 1][i] == composers[i];
      if project !in buckets {
        BucketOutsideOrder(composers[..i], project);
        order := order + [project];
        buckets := buckets[project := []];
      }
      buckets := buckets[project := buckets[project] + [composers[i]]];
    }
    assert composers[..|composers|] == composers;
    ProjectOrderDistinct(composers);
    forall k | k in ProjectOrder(composers) ensures Bucket(composers, k) != [] {
      BucketOfOrder(composers, k);
    }
    projects := ProjectMap(order, buckets);
  }

  lemma {:induction false} BucketOutsideOrder(cs: seq<WorkspaceComposer>, project: string)
    requires project !in ProjectOrder(cs)
    ensures Bucket(cs, project) == []
    decreases |cs|
  {
    if cs != [] {
      BucketOutsideOrder(cs[..|cs| - 1], project);
    }
  }

  lemma {:induction false} BucketOfOrder(cs: seq<WorkspaceComposer>, project: string)
    requires project in ProjectOrder(cs)
    ensures Bucket(cs, project) != []
    decreases |cs|
  {
    var init := cs[..|cs| - 1];
    if project in ProjectOrder(init) {
      BucketOfOrder(init, project);
    }
  }

  /** Every project name is a key once. */
  lemma {:induction false} ProjectOrderDistinct(cs: seq<WorkspaceComposer>)
    ensures Distinct(ProjectOrder(cs))
    decreases |cs|
  {
    if cs != [] {
      ProjectOrderDistinct(cs[..|cs| - 1]);
    }
  }

  /** Every composer is in the bucket of its own project, and that project is a key. */
  lemma {:induction false} GroupingCovers(cs: seq<WorkspaceComposer>, i: nat)
    requires i < |cs|
    ensures ProjectName(cs[i]) in ProjectOrder(cs)
    ensures cs[i] in Bucket(cs, ProjectName(cs[i]))
    decreases |cs|
  {
    var init := cs[..|cs| - 1];
    if i < |cs| - 1 {
      assert init[i] == cs[i];
      GroupingCovers(init, i);
    }
  }

  /** A bucket holds only composers of `cs` whose project is that bucket's key. */
  lemma {:induction false} BucketMembers(cs: seq<WorkspaceComposer>, project: string, c: WorkspaceComposer)
    requires c in Bucket(cs, project)
    ensures c in cs && ProjectName(c) == project
    decreases |cs|
  {
    var init := cs[..|cs| - 1];
    if c in Bucket(init, project) {
      BucketMembers(init, project, c);
      assert init == cs[..|cs| - 1];
    }
  }

  /** Bucketing distributes over concatenation, so it keeps input order. */
  lemma {:induction false} BucketConcat(a: seq<WorkspaceComposer>, b: seq<WorkspaceComposer>, project: string)
    ensures Bucket(a + b, project) == Bucket(a, project) + Bucket(b, project)
    decreases |b|
  {
    if b == [] {
      assert a + b == a;
    } else {
      var b' := b[..|b| - 1];
      assert (a + b)[..|a + b| - 1] == a + b';
      BucketConcat(a, b', project);
    }
  }

  /** The total size of the buckets of `keys`. */
  function SizeSum(keys: seq<string>, cs: seq<WorkspaceComposer>): nat {
    if keys == [] then 0 else |Bucket(cs, keys[0])| + SizeSum(keys[1..], cs)
  }

  lemma {:induction false} SizeSumAppend(keys: seq<string>, k: string, cs: seq<WorkspaceComposer>)
    ensures SizeSum(keys + [k], cs) == SizeSum(keys, cs) + |Bucket(cs, k)|
    decreases |keys|
  {
    if keys != [] {
      assert (keys + [k])[1..] == keys[1..] + [k];
      SizeSumAppend(keys[1..], k, cs);
    }
  }

  lemma {:induction false} SizeSumGrow(keys: seq<string>, cs: seq<WorkspaceComposer>, c: WorkspaceComposer)
    requires Distinct(keys)
    ensures SizeSum(keys, cs + [c]) == SizeSum(keys, cs) + (if ProjectName(c) in keys then 1 else 0)
    decreases |keys|
  {
    if keys != [] {
      assert (cs + [c])[..|cs + [c]| - 1] == cs;
      assert Distinct(keys[1..]);
      assert ProjectName(c) in keys <==> ProjectName(c) == keys[0] || ProjectName(c) in keys[1..];
      SizeSumGrow(keys[1..], cs, c);
    }
  }

  /** The bucket sizes add up to the number of composers: grouping loses nothing and duplicates nothing. */
  lemma {:induction false} GroupingSizes(cs: seq<WorkspaceComposer>)
    ensures SizeSum(ProjectOrder(cs), cs) == |cs|
    decreases |cs|
  {
    if cs != [] {
      var init := cs[..|cs| - 1];
      var c := cs[|cs| - 1];
      var order := ProjectOrder(init);
      var p := ProjectName(c);
      GroupingSizes(init);
      ProjectOrderDistinct(init);
      assert cs == init + [c];
      SizeSumGrow(order, init, c);
      assert SizeSum(order, cs) == |init| + (if p in order then 1 else 0);
      if p !in order {
        assert ProjectOrder(cs) == order + [p];
        SizeSumAppend(order, p, cs);
        BucketOutsideOrder(init, p);
        assert Bucket(cs, p) == Bucket(init, p) + [c];
      } else {
        assert ProjectOrder(cs) == order;
      }
    }
  }

  // ---------------------------------------------------------------------------
  // Ranking and the default project

  /** A project with the recency of its most recent composer. */
  datatype ProjectEntry = ProjectEntry(project: string, latest: int)

  function EntryLatest(e: ProjectEntry): int {
    e.latest
  }

  /** `Math.max(...cs.map(c => c.lastUpdatedAt || c.createdAt))` for a non-empty group. */
  function Latest(cs: seq<WorkspaceComposer>): (r: int)
    requires cs != []
    ensures forall i :: 0 <= i < |cs| ==> Recency(cs[i]) <= r
    ensures exists i :: 0 <= i < |cs| && Recency(cs[i]) == r
  {
    if |cs| == 1 then Recency(cs[0])
    else
      var rest := Latest(cs[1..]);
      assert forall i :: 1 <= i < |cs| ==> cs[i] == cs[1..][i - 1];
      if Recency(cs[0]) >= rest then Recency(cs[0]) else rest
  }

  /** The map's entries, in key order, each with its latest recency. */
  function Entries(pm: ProjectMap): (r: seq<ProjectEntry>)
    requires WellFormed(pm)
    ensures |r| == |pm.order|
    ensures forall i :: 0 <= i < |r| ==> r[i].project == pm.order[i] && r[i].latest == Latest(pm.buckets[pm.order[i]])
  {
    seq(|pm.order|, i requires 0 <= i < |pm.order| => ProjectEntry(pm.order[i], Latest(pm.buckets[pm.order[i]])))
  }

  /** `sortedProjects`: the entries, most recently updated project first, ties in key order. */
  function RankProjects(pm: ProjectMap): (r: seq<ProjectEntry>)
    requires WellFormed(pm)
    ensures SortedDesc(r, EntryLatest)
    ensures multiset(r) == multiset(Entries(pm)) && |r| == |pm.order|
    ensures forall v :: WithKey(r, EntryLatest, v) == WithKey(Entries(pm), EntryLatest, v)
    ensures forall i :: 0 <= i < |r| ==> r[i].project in pm.buckets && r[i].latest == Latest(pm.buckets[r[i].project])
  {
    var entries := Entries(pm);
    SortDescSorted(entries, EntryLatest);
    SortDescPermutes(entries, EntryLatest);
    forall v ensures WithKey(SortDesc(entries, EntryLatest), EntryLatest, v) == WithKey(entries, EntryLatest, v) {
      SortDescStable(entries, EntryLatest, v);
    }
    var r := SortDesc(entries, EntryLatest);
    forall i | 0 <= i < |r| ensures r[i].project in pm.buckets && r[i].latest == Latest(pm.buckets[r[i].project]) {
      assert r[i] in multiset(entries);
    }
    r
  }

  /** `findIndex(p => p.project === name)`. */
  function FindProject(ranked: seq<ProjectEntry>, name: string): (r: int)
    ensures -1 <= r < |ranked|
    ensures r >= 0 ==> ranked[r].project == name
    ensures forall j :: 0 <= j < |ranked| && (r == -1 || j < r) ==> ranked[j].project != name
  {
    if ranked == [] then -1
    else if ranked[0].project == name then 0
    else
      var r := FindProject(ranked[1..], name);
      if r == -1 then -1 else r + 1
  }

  /**
   * `defaultSelection`: the first ranked project named like the current
   * directory, or the top-ranked one when none is.
   */
  function DefaultSelection(ranked: seq<ProjectEntry>, currentDir: string): (r: nat)
    ensures ranked != [] ==> r < |ranked|
    ensures (exists i :: 0 <= i < |ranked| && ranked[i].project == currentDir) ==>
      ranked[r].project == currentDir && forall j :: 0 <= j < r ==> ranked[j].project != currentDir
    ensures (forall i :: 0 <= i < |ranked| ==> ranked[i].project != currentDir) ==> r == 0
  {
    var i := FindProject(ranked, currentDir);
    if i >= 0 then i else 0
  }

  /** Every project of the map is ranked somewhere. */
  lemma RankedCovers(pm: ProjectMap, p: string) returns (i: nat)
    requires WellFormed(pm) && p in pm.buckets
    ensures i < |RankProjects(pm)| && RankProjects(pm)[i].project == p
  {
    var entries := Entries(pm);
    var ranked := RankProjects(pm);
    var k :| 0 <= k < |pm.order| && pm.order[k] == p;
    i := PermutationIndex(ranked, entries, k);
  }

  /** A current directory that names a project selects that project; otherwise the top-ranked one. */
  lemma DefaultSelectionMeaning(pm: ProjectMap, currentDir: string)
    requires WellFormed(pm) && pm.order != []
    ensures var ranked := RankProjects(pm);
            var d := DefaultSelection(ranked, currentDir);
            && d < |ranked|
            && (currentDir in pm.buckets ==> ranked[d].project == currentDir)
            && (currentDir !in pm.buckets ==> d == 0)
  {
    var ranked := RankProjects(pm);
    if currentDir in pm.buckets {
      var i := RankedCovers(pm, currentDir);
    }
  }

  /** The top-ranked project holds the most recent composer of the map. */
  lemma TopRankedIsLatest(pm: ProjectMap)
    requires WellFormed(pm) && pm.order != []
    ensures forall p :: p in pm.buckets ==> Latest(pm.buckets[p]) <= Latest(pm.buckets[RankProjects(pm)[0].project])
  {
    var ranked := RankProjects(pm);
    forall p | p in pm.buckets ensures Latest(pm.buckets[p]) <= Latest(pm.buckets[ranked[0].project]) {
      var i := RankedCovers(pm, p);
      assert EntryLatest(ranked[0]) >= EntryLatest(ranked[i]);
    }
  }
}
