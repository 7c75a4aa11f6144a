/**
 Finding skill files below a root (src/core.rs:5055-5091): a depth-first walk that resolves every path
 first, so that links may make the directory graph cyclic. The file system is any finite graph of
 canonical nodes.
 */
module SkillSearch {
  import opened Sorting
  import opened Json

  type Path = string

  datatype Node = File(name: string) | Directory(entries: seq<Path>) | Other

  /** `links` is what `canonicalize` resolves; a path it fails on stands for itself and names nothing. */
  datatype FileSystem = FileSystem(links: map<Path, Path>, nodes: map<Path, Node>) {
    function Canonical(path: Path): Path {
      if path in links then links[path] else path
    }

    function NodeAt(path: Path): Node {
      if path in nodes then nodes[path] else Other
    }

    predicate IsSkill(path: Path) {
      NodeAt(path) == File("SKILL.md")
    }

    predicate IsDirectory(path: Path) {
      NodeAt(path).Directory?
    }

    function Directories(): set<Path> {
      set p | p in nodes && nodes[p].Directory? :: p
    }
  }

  datatype State = State(visited: set<Path>, seen: set<Path>, result: seq<Path>)

  function Unvisited(fs: FileSystem, visited: set<Path>): nat {
    |fs.Directories() - visited|
  }

  lemma UnvisitedShrinks(fs: FileSystem, a: set<Path>, b: set<Path>)
    requires a <= b
    ensures Unvisited(fs, b) <= Unvisited(fs, a)
    ensures forall d | d in b && d !in a && fs.IsDirectory(d) :: Unvisited(fs, b) < Unvisited(fs, a)
  {
    var x, y := fs.Directories() - b, fs.Directories() - a;
    assert x <= y && |y - x| == |y| - |x|;
    forall d | d in b && d !in a && fs.IsDirectory(d) ensures |x| < |y| {
      assert d in y - x;
    }
  }

  function SortedEntries(fs: FileSystem, directory: Path): seq<Path> {
    match fs.NodeAt(directory)
    case Directory(entries) => Sort(entries, KeyLeq)
    case _ => []
  }

  /** What the walk does at one path. */
  function Visit(fs: FileSystem, path: Path, s: State): (t: State)
    ensures s.visited <= t.visited
    decreases Unvisited(fs, s.visited), 0
  {
    var resolved := fs.Canonical(path);
    match fs.NodeAt(resolved)
    case File(name) =>
      if name == "SKILL.md" && resolved !in s.seen
      then s.(seen := s.seen + {resolved}, result := s.result + [resolved])
      else s
    case Directory(_) =>
      if resolved in s.visited then s
      else
        UnvisitedShrinks(fs, s.visited, s.visited + {resolved});
        VisitAll(fs, SortedEntries(fs, resolved), s.(visited := s.visited + {resolved}))
    case Other => s
  }

  function VisitAll(fs: FileSystem, paths: seq<Path>, s: State): (t: State)
    ensures s.visited <= t.visited
    decreases Unvisited(fs, s.visited), 1 + |paths|
  {
    if paths == [] then s
    else
      var next := Visit(fs, paths[0], s);
      UnvisitedShrinks(fs, s.visited, next.visited);
      VisitAll(fs, paths[1..], next)
  }

  function SkillFiles(fs: FileSystem, root: Path): seq<Path> {
    Visit(fs, fs.Canonical(root), State({}, {}, [])).result
  }

  /** The walk's mutable sets, as the source passes them down by reference. */
  class SkillCollector {
    var visitedDirectories: set<Path>
    var seenFiles: set<Path>
    var result: seq<Path>

    constructor ()
      ensures Contents() == State({}, {}, [])
    {
      visitedDirectories, seenFiles, result := {}, {}, [];
    }

    function Contents(): State
      reads this
    {
      State(visitedDirectories, seenFiles, result)
    }

    /** `collect_skill_files`; it terminates because every descent visits one more directory. */
    method Collect(fs: FileSystem, root: Path)
      modifies this
      ensures Contents() == Visit(fs, root, old(Contents()))
      decreases Unvisited(fs, visitedDirectories)
    {
      var resolved := fs.Canonical(root);
      if fs.NodeAt(resolved).File? {
        if fs.NodeAt(resolved).name == "SKILL.md" && resolved !in seenFiles {
          seenFiles := seenFiles + {resolved};
          result := result + [resolved];
        }
        return;
      }
      if !fs.IsDirectory(resolved) || resolved in visitedDirectories {
        return;
      }
      UnvisitedShrinks(fs, visitedDirectories, visitedDirectories + {resolved});
      visitedDirectories := visitedDirectories + {resolved};
      var entries := SortedEntries(fs, resolved);
      ghost var start := Contents();
      for i := 0 to |entries|
        invariant start.visited <= visitedDirectories
        invariant VisitAll(fs, entries, start) == VisitAll(fs, entries[i..], Contents())
      {
        UnvisitedShrinks(fs, start.visited, visitedDirectories);
        assert entries[i..][1..] == entries[i + 1..];
        Collect(fs, entries[i]);
      }
      assert entries[|entries|..] == [];
    }
  }

  method RecursiveSkillFiles(fs: FileSystem, root: Path) returns (files: seq<Path>)
    ensures files == SkillFiles(fs, root)
  {
    var collector := new SkillCollector();
    collector.Collect(fs, fs.Canonical(root));
    files := collector.result;
  }

  // ----- reachability

  ghost predicate Edge(fs: FileSystem, from: Path, to: Path) {
    fs.IsDirectory(from) && exists e | e in fs.NodeAt(from).entries :: fs.Canonical(e) == to
  }

  ghost predicate ReachesIn(fs: FileSystem, from: Path, to: Path, steps: nat)
    decreases steps
  {
    if steps == 0 then from == to
    else exists mid :: Edge(fs, from, mid) && ReachesIn(fs, mid, to, steps - 1)
  }

  ghost predicate Reaches(fs: FileSystem, from: Path, to: Path) {
    exists steps: nat :: ReachesIn(fs, from, to, steps)
  }

  lemma ReachesItself(fs: FileSystem, path: Path)
    ensures Reaches(fs, path, path)
  {
    assert ReachesIn(fs, path, path, 0);
  }

  lemma ReachesThrough(fs: FileSystem, from: Path, mid: Path, to: Path)
    requires Edge(fs, from, mid) && Reaches(fs, mid, to)
    ensures Reaches(fs, from, to)
  {
    var steps: nat :| ReachesIn(fs, mid, to, steps);
    assert ReachesIn(fs, from, to, steps + 1);
  }

  // ----- the walk is exact

  /** The walk has dealt with the node. */
  ghost predicate Handled(fs: FileSystem, node: Path, s: State) {
    && (fs.IsSkill(node) ==> node in s.seen)
    && (fs.IsDirectory(node) ==> node in s.visited)
  }

  ghost predicate Expanded(fs: FileSystem, directory: Path, s: State) {
    forall child | Edge(fs, directory, child) :: Handled(fs, child, s)
  }

  /** The result lists the seen files, each once, and only skill files are seen. */
  ghost predicate Consistent(fs: FileSystem, s: State) {
    && (forall p :: p in s.seen <==> p in s.result)
    && Distinct(s.result)
    && (forall p | p in s.seen :: fs.IsSkill(p))
  }

  /** From `s` to `t` the walk only added things, all below `roots`, and expanded what it visited. */
  ghost predicate Walked(fs: FileSystem, roots: set<Path>, s: State, t: State) {
    && s.visited <= t.visited && s.seen <= t.seen && s.result <= t.result
    && (forall d | d in t.visited && d !in s.visited :: Expanded(fs, d, t))
    && (forall d | d in t.visited && d !in s.visited :: exists r | r in roots :: Reaches(fs, r, d))
    && (forall f | f in t.seen && f !in s.seen :: exists r | r in roots :: Reaches(fs, r, f))
    && (forall r | r in roots :: Handled(fs, r, t))
  }

  lemma EntriesAreChildren(fs: FileSystem, directory: Path)
    requires fs.IsDirectory(directory)
    ensures forall c :: Edge(fs, directory, c) <==> c in Targets(fs, SortedEntries(fs, directory))
  {
    var entries := fs.NodeAt(directory).entries;
    var sorted := SortedEntries(fs, directory);
    KeyOrder();
    SortIsCorrect(entries, KeyLeq);
    forall e ensures e in entries <==> e in sorted {
      assert e in entries <==> e in multiset(entries);
      assert e in sorted <==> e in multiset(sorted);
    }
  }

  ghost function Targets(fs: FileSystem, paths: seq<Path>): set<Path> {
    set e | e in paths :: fs.Canonical(e)
  }

  /** A file, a directory visited before, or nothing. */
  lemma LeafWalks(fs: FileSystem, path: Path, s: State)
    requires Consistent(fs, s) && (!fs.IsDirectory(fs.Canonical(path)) || fs.Canonical(path) in s.visited)
    ensures Consistent(fs, Visit(fs, path, s))
    ensures Walked(fs, {fs.Canonical(path)}, s, Visit(fs, path, s))
  {
    hide Reaches, Edge;
    ReachesItself(fs, fs.Canonical(path));
    assert fs.Canonical(path) in {fs.Canonical(path)};
  }

  lemma ConsistentInside(fs: FileSystem, s: State, directory: Path)
    requires Consistent(fs, s)
    ensures Consistent(fs, s.(visited := s.visited + {directory}))
  {}

  lemma {:induction false} VisitWalks(fs: FileSystem, path: Path, s: State)
    requires Consistent(fs, s)
    ensures Consistent(fs, Visit(fs, path, s))
    ensures Walked(fs, {fs.Canonical(path)}, s, Visit(fs, path, s))
    decreases Unvisited(fs, s.visited), 0
  {
    hide Walked, Consistent;
    var resolved := fs.Canonical(path);
    var t := Visit(fs, path, s);
    if !fs.IsDirectory(resolved) || resolved in s.visited {
      LeafWalks(fs, path, s);
    } else {
      ConsistentInside(fs, s, resolved);
      var entered := s.(visited := s.visited + {resolved});
      UnvisitedShrinks(fs, s.visited, entered.visited);
      VisitAllWalks(fs, SortedEntries(fs, resolved), entered);
      EntriesAreChildren(fs, resolved);
      EnteredWalk(fs, resolved, s, t);
    }
  }

  /** Walking all children of a directory just entered is a walk from that directory. */
  lemma EnteredWalk(fs: FileSystem, directory: Path, s: State, t: State)
    requires fs.IsDirectory(directory)
    requires Walked(fs, Targets(fs, SortedEntries(fs, directory)), s.(visited := s.visited + {directory}), t)
    requires forall c :: Edge(fs, directory, c) <==> c in Targets(fs, SortedEntries(fs, directory))
    ensures Walked(fs, {directory}, s, t)
  {
    hide Reaches, SortedEntries;
    var children := Targets(fs, SortedEntries(fs, directory));
    forall x | exists r | r in children :: Reaches(fs, r, x) ensures Reaches(fs, directory, x) {
      var r :| r in children && Reaches(fs, r, x);
      ReachesThrough(fs, directory, r, x);
    }
    ReachesItself(fs, directory);
    assert Expanded(fs, directory, t);
    assert directory in {directory};
    assert !fs.IsSkill(directory);
  }

  lemma {:induction false} VisitAllWalks(fs: FileSystem, paths: seq<Path>, s: State)
    requires Consistent(fs, s)
    ensures Consistent(fs, VisitAll(fs, paths, s))
    ensures Walked(fs, Targets(fs, paths), s, VisitAll(fs, paths, s))
    decreases Unvisited(fs, s.visited), 1 + |paths|
  {
    hide Walked, Consistent, Visit, FileSystem.Canonical;
    if paths == [] {
      StandingStill(fs, s);
      assert Targets(fs, paths) == {};
    } else {
      var next := Visit(fs, paths[0], s);
      var t := VisitAll(fs, paths[1..], next);
      VisitWalks(fs, paths[0], s);
      UnvisitedShrinks(fs, s.visited, next.visited);
      VisitAllWalks(fs, paths[1..], next);
      assert paths == [paths[0]] + paths[1..];
      assert Targets(fs, paths) == {fs.Canonical(paths[0])} + Targets(fs, paths[1..]);
      WalksCompose(fs, {fs.Canonical(paths[0])}, Targets(fs, paths[1..]), s, next, t);
    }
  }

  lemma StandingStill(fs: FileSystem, s: State)
    ensures Walked(fs, {}, s, s)
  {}

  lemma WalksCompose(fs: FileSystem, a: set<Path>, b: set<Path>, s: State, m: State, t: State)
    requires Walked(fs, a, s, m) && Walked(fs, b, m, t)
    ensures Walked(fs, a + b, s, t)
  {
    hide Reaches, Edge;
    forall d | d in t.visited && d !in s.visited
      ensures Expanded(fs, d, t) && exists r | r in a + b :: Reaches(fs, r, d)
    {
      if d in m.visited {
        assert Expanded(fs, d, m);
        var r :| r in a && Reaches(fs, r, d);
        assert r in a + b;
      } else {
        var r :| r in b && Reaches(fs, r, d);
        assert r in a + b;
      }
    }
    forall f | f in t.seen && f !in s.seen
      ensures exists r | r in a + b :: Reaches(fs, r, f)
    {
      if f in m.seen {
        var r :| r in a && Reaches(fs, r, f);
        assert r in a + b;
      } else {
        var r :| r in b && Reaches(fs, r, f);
        assert r in a + b;
      }
    }
  }

  lemma {:induction false} ReachableIsHandled(fs: FileSystem, from: Path, to: Path, steps: nat, t: State)
    requires Handled(fs, from, t) && ReachesIn(fs, from, to, steps)
    requires forall d | d in t.visited :: Expanded(fs, d, t)
    ensures Handled(fs, to, t)
    decreases steps
  {
    if steps == 0 {
    } else {
      var mid :| Edge(fs, from, mid) && ReachesIn(fs, mid, to, steps - 1);
      ReachableIsHandled(fs, mid, to, steps - 1, t);
    }
  }

  /** The search returns every reachable skill file once and nothing else, on any graph. */
  lemma SkillSearchIsExact(fs: FileSystem, root: Path)
    ensures var start := fs.Canonical(fs.Canonical(root));
      forall f :: f in SkillFiles(fs, root) <==> fs.NodeAt(f) == File("SKILL.md") && Reaches(fs, start, f)
    ensures Distinct(SkillFiles(fs, root))
  {
    var start := fs.Canonical(fs.Canonical(root));
    var s := State({}, {}, []);
    var t := Visit(fs, fs.Canonical(root), s);
    VisitWalks(fs, fs.Canonical(root), s);
    assert start in {start};
    forall f ensures f in t.result <==> fs.IsSkill(f) && Reaches(fs, start, f) {
      if fs.IsSkill(f) && Reaches(fs, start, f) {
        var steps: nat :| ReachesIn(fs, start, f, steps);
        ReachableIsHandled(fs, start, f, steps, t);
      }
    }
  }

  // ----- the order in which the file system lists entries does not matter

  ghost predicate SameUpToListing(a: FileSystem, b: FileSystem) {
    && a.links == b.links && a.nodes.Keys == b.nodes.Keys
    && forall p | p in a.nodes ::
         a.nodes[p] == b.nodes[p] ||
         (a.nodes[p].Directory? && b.nodes[p].Directory? &&
          multiset(a.nodes[p].entries) == multiset(b.nodes[p].entries))
  }

  lemma SameSortedEntries(a: FileSystem, b: FileSystem, directory: Path)
    requires SameUpToListing(a, b)
    ensures SortedEntries(a, directory) == SortedEntries(b, directory)
    ensures a.Directories() == b.Directories()
  {
    KeyOrder();
    if a.IsDirectory(directory) {
      SortIgnoresInputOrder(a.NodeAt(directory).entries, b.NodeAt(directory).entries, KeyLeq);
    }
  }

  lemma {:induction false} VisitIgnoresListing(a: FileSystem, b: FileSystem, path: Path, s: State)
    requires SameUpToListing(a, b)
    ensures Visit(a, path, s) == Visit(b, path, s)
    decreases Unvisited(a, s.visited), 0
  {
    var resolved := a.Canonical(path);
    SameSortedEntries(a, b, resolved);
    if a.IsDirectory(resolved) && resolved !in s.visited {
      UnvisitedShrinks(a, s.visited, s.visited + {resolved});
      VisitAllIgnoresListing(a, b, SortedEntries(a, resolved), s.(visited := s.visited + {resolved}));
    }
  }

  lemma {:induction false} VisitAllIgnoresListing(a: FileSystem, b: FileSystem, paths: seq<Path>, s: State)
    requires SameUpToListing(a, b)
    ensures VisitAll(a, paths, s) == VisitAll(b, paths, s)
    decreases Unvisited(a, s.visited), 1 + |paths|
  {
    if paths == [] {
    } else {
      VisitIgnoresListing(a, b, paths[0], s);
      UnvisitedShrinks(a, s.visited, Visit(a, paths[0], s).visited);
      VisitAllIgnoresListing(a, b, paths[1..], Visit(a, paths[0], s));
    }
  }

  /** The found files and their order depend on the graph only. */
  lemma SearchIsDeterministic(a: FileSystem, b: FileSystem, root: Path)
    requires SameUpToListing(a, b)
    ensures SkillFiles(a, root) == SkillFiles(b, root)
  {
    VisitIgnoresListing(a, b, a.Canonical(root), State({}, {}, []));
  }

  // ----- the order of what is found

  /** In dictionary order. */
  ghost predicate InOrder(files: seq<Path>) {
    forall i, j | 0 <= i < j < |files| ::
      files[i] <= files[j] || exists k | 0 <= k < |files[i]| && k < |files[j]| ::
        files[i][..k] == files[j][..k] && files[i][k] < files[j][k]
  }

  lemma {:induction false} NewFilesAreAppended(fs: FileSystem, paths: seq<Path>, s: State)
    requires forall i | 0 <= i < |paths| :: fs.Canonical(paths[i]) == paths[i] && fs.IsSkill(paths[i])
    requires Distinct(paths) && forall i | 0 <= i < |paths| :: paths[i] !in s.seen
    ensures VisitAll(fs, paths, s).result == s.result + paths
  {
    if paths == [] {
    } else {
      var next := Visit(fs, paths[0], s);
      assert paths == [paths[0]] + paths[1..];
      NewFilesAreAppended(fs, paths[1..], next);
    }
  }

  lemma SortedIsInOrder(files: seq<Path>)
    requires Sorted(files, KeyLeq)
    ensures InOrder(files)
  {
    forall i, j | 0 <= i < j < |files|
      ensures files[i] <= files[j] || exists k | 0 <= k < |files[i]| && k < |files[j]| ::
        files[i][..k] == files[j][..k] && files[i][k] < files[j][k]
    {
      KeyLeqIsLexicographic(files[i], files[j]);
    }
  }

  /** All entries are skill files, and no entry is a link. */
  ghost predicate HoldsSkillsOnly(fs: FileSystem, entries: seq<Path>) {
    && Distinct(entries)
    && forall i | 0 <= i < |entries| :: fs.Canonical(entries[i]) == entries[i] && fs.IsSkill(entries[i])
  }

  lemma SortedHoldsSkills(fs: FileSystem, entries: seq<Path>, sorted: seq<Path>)
    requires HoldsSkillsOnly(fs, entries) && multiset(sorted) == multiset(entries)
    ensures HoldsSkillsOnly(fs, sorted)
  {
    hide FileSystem.Canonical, FileSystem.IsSkill;
    SortedStaysDistinct(entries, sorted);
    forall i | 0 <= i < |sorted| ensures fs.Canonical(sorted[i]) == sorted[i] && fs.IsSkill(sorted[i]) {
      assert sorted[i] in multiset(sorted);
      assert sorted[i] in entries;
    }
  }

  lemma SearchEntersDirectory(fs: FileSystem, root: Path)
    requires fs.IsDirectory(fs.Canonical(fs.Canonical(root)))
    ensures var start := fs.Canonical(fs.Canonical(root));
      SkillFiles(fs, root) == VisitAll(fs, SortedEntries(fs, start), State({start}, {}, [])).result
  {
    hide VisitAll, SortedEntries;
    var start := fs.Canonical(fs.Canonical(root));
    assert {} + {start} == {start};
  }

  /** The skill files of one directory are found in dictionary order. */
  lemma DirectoryIsListedInOrder(fs: FileSystem, root: Path)
    requires fs.IsDirectory(fs.Canonical(fs.Canonical(root)))
    requires HoldsSkillsOnly(fs, fs.NodeAt(fs.Canonical(fs.Canonical(root))).entries)
    ensures multiset(SkillFiles(fs, root)) == multiset(fs.NodeAt(fs.Canonical(fs.Canonical(root))).entries)
    ensures InOrder(SkillFiles(fs, root))
  {
    hide FileSystem.Canonical, InOrder, Sort, VisitAll, SkillFiles;
    var start := fs.Canonical(fs.Canonical(root));
    var entries, sorted := fs.NodeAt(start).entries, SortedEntries(fs, start);
    KeyOrder();
    SortIsCorrect(entries, KeyLeq);
    SortedHoldsSkills(fs, entries, sorted);
    hide KeyLeq;
    SearchEntersDirectory(fs, root);
    NewFilesAreAppended(fs, sorted, State({start}, {}, []));
    assert [] + sorted == sorted;
    SortedIsInOrder(sorted);
  }

  lemma SortedStaysDistinct(entries: seq<Path>, sorted: seq<Path>)
    requires Distinct(entries) && multiset(sorted) == multiset(entries)
    ensures Distinct(sorted)
  {
    forall i, j | 0 <= i < j < |sorted| ensures sorted[i] != sorted[j] {
      if sorted[i] == sorted[j] {
        assert sorted == sorted[..j] + [sorted[j]] + sorted[j + 1..];
        assert sorted[i] in sorted[..j];
        assert multiset(sorted)[sorted[i]] >= 2;
        OnlyOnce(entries, sorted[i]);
      }
    }
  }

  lemma {:induction false} OnlyOnce(entries: seq<Path>, x: Path)
    requires Distinct(entries)
    ensures multiset(entries)[x] <= 1
  {
    if entries == [] {
    } else {
      assert entries == [entries[0]] + entries[1..];
      OnlyOnce(entries[1..], x);
      if entries[0] == x {
        assert x !in entries[1..];
      }
    }
  }
}
