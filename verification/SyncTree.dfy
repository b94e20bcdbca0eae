/** Making a prepared generation durable: a worklist over its directory tree
    syncs every file as it is met, then every directory, children first. */
module SyncTree {

  datatype Node = File | Symlink | Special | Dir(entries: seq<Entry>)
  datatype Entry = Entry(name: string, node: Node)

  type Path = seq<string>

  datatype Event = SyncFile(path: Path) | SyncDir(path: Path)

  // ---------------------------------------------------------------------
  // What a tree contains
  // ---------------------------------------------------------------------

  function Files(path: Path, node: Node): multiset<Path>
    decreases node, 1
  {
    match node
    case File => multiset{path}
    case Dir(entries) => EntryFiles(path, entries)
    case _ => multiset{}
  }

  function EntryFiles(path: Path, entries: seq<Entry>): multiset<Path>
    decreases entries, 0
  {
    if entries == [] then multiset{}
    else
      var last := entries[|entries| - 1];
      EntryFiles(path, entries[..|entries| - 1]) + Files(path + [last.name], last.node)
  }

  function Dirs(path: Path, node: Node): multiset<Path>
    decreases node, 1
  {
    if node.Dir? then multiset{path} + EntryDirs(path, node.entries) else multiset{}
  }

  function EntryDirs(path: Path, entries: seq<Entry>): multiset<Path>
    decreases entries, 0
  {
    if entries == [] then multiset{}
    else
      var last := entries[|entries| - 1];
      EntryDirs(path, entries[..|entries| - 1]) + Dirs(path + [last.name], last.node)
  }

  /** Only regular files and directories, with distinct names in each directory. */
  predicate Clean(node: Node)
    decreases node, 1
  {
    match node
    case File => true
    case Dir(entries) => CleanEntries(entries)
    case _ => false
  }

  predicate CleanEntries(entries: seq<Entry>)
    decreases entries, 0
  {
    entries == [] || (CleanEntries(entries[..|entries| - 1]) && Clean(entries[|entries| - 1].node))
  }

  predicate Named(node: Node)
    decreases node, 1
  {
    node.Dir? ==> NamedEntries(node.entries)
  }

  predicate NamedEntries(entries: seq<Entry>)
    decreases entries, 0
  {
    && (forall i, j | 0 <= i < j < |entries| :: entries[i].name != entries[j].name)
    && (forall i | 0 <= i < |entries| :: Named(entries[i].node))
  }

  function Size(node: Node): (n: nat)
    ensures n >= 1
    decreases node, 1
  {
    if node.Dir? then 1 + EntriesSize(node.entries) else 1
  }

  function EntriesSize(entries: seq<Entry>): nat
    decreases entries, 0
  {
    if entries == [] then 0 else EntriesSize(entries[..|entries| - 1]) + Size(entries[|entries| - 1].node)
  }

  // ---------------------------------------------------------------------
  // The worklist
  // ---------------------------------------------------------------------

  datatype Work = Work(path: Path, node: Node)

  function WorkFiles(pending: seq<Work>): multiset<Path> {
    if pending == [] then multiset{}
    else WorkFiles(pending[..|pending| - 1]) + Files(pending[|pending| - 1].path, pending[|pending| - 1].node)
  }

  function WorkSize(pending: seq<Work>): nat {
    if pending == [] then 0 else WorkSize(pending[..|pending| - 1]) + Size(pending[|pending| - 1].node)
  }

  predicate WorkClean(pending: seq<Work>) {
    forall i | 0 <= i < |pending| :: Clean(pending[i].node)
  }

  predicate WorkDirsOnly(pending: seq<Work>) {
    forall i | 0 <= i < |pending| :: pending[i].node.Dir?
  }

  lemma PushWork(pending: seq<Work>, w: Work)
    ensures WorkFiles(pending + [w]) == WorkFiles(pending) + Files(w.path, w.node)
    ensures WorkSize(pending + [w]) == WorkSize(pending) + Size(w.node)
    ensures WorkOrder(pending + [w]) == PreOrder(w.path, w.node) + WorkOrder(pending)
  {}

  // ---------------------------------------------------------------------
  // The order in which directories are met
  // ---------------------------------------------------------------------

  /** A directory, then what lies below its entries, last entry first: the order
      in which a stack of pending directories is emptied. */
  function PreOrder(path: Path, node: Node): seq<Path>
    decreases node, 1
  {
    if node.Dir? then [path] + EntriesOrder(path, node.entries) else []
  }

  function EntriesOrder(path: Path, entries: seq<Entry>): seq<Path>
    decreases entries, 0
  {
    if entries == [] then []
    else
      PreOrder(path + [entries[|entries| - 1].name], entries[|entries| - 1].node) +
      EntriesOrder(path, entries[..|entries| - 1])
  }

  function WorkOrder(pending: seq<Work>): seq<Path> {
    if pending == [] then []
    else PreOrder(pending[|pending| - 1].path, pending[|pending| - 1].node) + WorkOrder(pending[..|pending| - 1])
  }

  predicate Below(path: Path, p: Path) { path <= p }

  lemma BelowChild(path: Path, name: string, p: Path)
    requires Below(path + [name], p)
    ensures Below(path, p) && |p| > |path| && p[|path|] == name
  {}

  lemma {:induction false} OrderBelow(path: Path, node: Node)
    ensures forall i | 0 <= i < |PreOrder(path, node)| :: Below(path, PreOrder(path, node)[i])
    decreases node, 1
  {
    if node.Dir? { EntriesBelow(path, node.entries); }
  }

  /** What lies below the entries starts with the path and the name of one of them. */
  lemma {:induction false} EntriesBelow(path: Path, entries: seq<Entry>)
    ensures forall p | p in EntriesOrder(path, entries) ::
              Below(path, p) && |p| > |path| && exists k :: 0 <= k < |entries| && p[|path|] == entries[k].name
    decreases entries, 0
  {
    if entries != [] {
      var last := entries[|entries| - 1];
      var init := entries[..|entries| - 1];
      OrderBelow(path + [last.name], last.node);
      EntriesBelow(path, init);
      forall p | p in EntriesOrder(path, entries)
        ensures Below(path, p) && |p| > |path| && exists k :: 0 <= k < |entries| && p[|path|] == entries[k].name
      {
        if p in PreOrder(path + [last.name], last.node) {
          BelowChild(path, last.name, p);
        } else {
          var k :| 0 <= k < |init| && p[|path|] == init[k].name;
          assert entries[k] == init[k];
        }
      }
    }
  }

  /** No path comes after one that lies below it. */
  predicate ParentsFirst(s: seq<Path>) {
    forall i, j | 0 <= i < j < |s| :: !Below(s[j], s[i])
  }

  lemma ParentsFirstConcat(a: seq<Path>, b: seq<Path>)
    requires ParentsFirst(a) && ParentsFirst(b)
    requires forall p, q | p in a && q in b :: !Below(q, p)
    ensures ParentsFirst(a + b)
  {}

  lemma {:induction false} OrderParentsFirst(path: Path, node: Node)
    requires Named(node)
    ensures ParentsFirst(PreOrder(path, node))
    decreases node, 1
  {
    if node.Dir? {
      EntriesParentsFirst(path, node.entries);
      EntriesBelow(path, node.entries);
      ParentsFirstConcat([path], EntriesOrder(path, node.entries));
    }
  }

  lemma {:induction false} EntriesParentsFirst(path: Path, entries: seq<Entry>)
    requires NamedEntries(entries)
    ensures ParentsFirst(EntriesOrder(path, entries))
    decreases entries, 0
  {
    if entries != [] {
      var last := entries[|entries| - 1];
      var init := entries[..|entries| - 1];
      var a := PreOrder(path + [last.name], last.node);
      var b := EntriesOrder(path, init);
      OrderParentsFirst(path + [last.name], last.node);
      EntriesParentsFirst(path, init);
      OrderBelow(path + [last.name], last.node);
      EntriesBelow(path, init);
      forall p, q | p in a && q in b ensures !Below(q, p) {
        BelowChild(path, last.name, p);
        var k :| 0 <= k < |init| && q[|path|] == init[k].name;
        assert entries[k].name != last.name;
      }
      ParentsFirstConcat(a, b);
    }
  }

  lemma {:induction false} OrderMultiset(path: Path, node: Node)
    ensures multiset(PreOrder(path, node)) == Dirs(path, node)
    decreases node, 1
  {
    if node.Dir? { EntriesMultiset(path, node.entries); }
  }

  lemma {:induction false} EntriesMultiset(path: Path, entries: seq<Entry>)
    ensures multiset(EntriesOrder(path, entries)) == EntryDirs(path, entries)
    decreases entries, 0
  {
    if entries != [] {
      OrderMultiset(path + [entries[|entries| - 1].name], entries[|entries| - 1].node);
      EntriesMultiset(path, entries[..|entries| - 1]);
    }
  }

  function FileEvents(paths: seq<Path>): (r: seq<Event>)
    ensures |r| == |paths| && forall i | 0 <= i < |r| :: r[i] == SyncFile(paths[i])
  {
    seq(|paths|, i requires 0 <= i < |paths| => SyncFile(paths[i]))
  }

  function DirEvents(paths: seq<Path>): (r: seq<Event>)
    ensures |r| == |paths| && forall i | 0 <= i < |r| :: r[i] == SyncDir(paths[i])
  {
    seq(|paths|, i requires 0 <= i < |paths| => SyncDir(paths[i]))
  }

  predicate Unbroken(paths: multiset<Path>, broken: set<Path>) {
    forall p | p in paths :: p !in broken
  }

  lemma CleanPrefix(entries: seq<Entry>, n: nat)
    requires n < |entries|
    ensures entries[..n + 1][..n] == entries[..n] && entries[..n + 1][n] == entries[n]
    ensures CleanEntries(entries[..n + 1]) <==> CleanEntries(entries[..n]) && Clean(entries[n].node)
  {}

  lemma {:induction false} CleanAll(entries: seq<Entry>, n: nat)
    requires n <= |entries| && CleanEntries(entries)
    ensures CleanEntries(entries[..n])
  {
    if n < |entries| {
      CleanAll(entries[..|entries| - 1], n);
      assert entries[..|entries| - 1][..n] == entries[..n];
    } else {
      assert entries[..n] == entries;
    }
  }

  lemma {:induction false} EntryInTree(path: Path, entries: seq<Entry>, n: nat)
    requires n < |entries|
    ensures Files(path + [entries[n].name], entries[n].node) <= EntryFiles(path, entries)
    ensures Dirs(path + [entries[n].name], entries[n].node) <= EntryDirs(path, entries)
  {
    if n < |entries| - 1 {
      EntryInTree(path, entries[..|entries| - 1], n);
    }
  }

  lemma NextEntry(path: Path, entries: seq<Entry>, n: nat)
    requires n < |entries|
    ensures var e := entries[n]; var child := path + [e.name];
            && EntryFiles(path, entries[..n + 1]) == EntryFiles(path, entries[..n]) + Files(child, e.node)
            && EntriesOrder(path, entries[..n + 1]) == PreOrder(child, e.node) + EntriesOrder(path, entries[..n])
            && EntriesSize(entries[..n + 1]) == EntriesSize(entries[..n]) + Size(e.node)
  {
    CleanPrefix(entries, n);
  }

  /** What the worklist gains from the first `n` entries of a directory. */
  ghost predicate EntriesRead(path: Path, entries: seq<Entry>, n: nat, before: seq<Work>, files: seq<Path>,
                        pending: seq<Work>) {
    && n <= |entries|
    && WorkDirsOnly(pending)
    && WorkOrder(pending) == EntriesOrder(path, entries[..n]) + WorkOrder(before)
    && multiset(files) + WorkFiles(pending) == WorkFiles(before) + EntryFiles(path, entries[..n])
    && WorkSize(pending) <= WorkSize(before) + EntriesSize(entries[..n])
    && (WorkClean(pending) <==> WorkClean(before) && CleanEntries(entries[..n]))
  }

  lemma AddBoth(a: multiset<Path>, b: multiset<Path>, c: multiset<Path>, d: multiset<Path>, x: multiset<Path>)
    requires a + b == c + d
    ensures a + (b + x) == c + (d + x) && (a + x) + b == c + (d + x)
  {
    assert a + (b + x) == (a + b) + x;
    assert (a + x) + b == (a + b) + x;
    assert c + (d + x) == (c + d) + x;
  }

  lemma PushClean(pending: seq<Work>, w: Work)
    ensures WorkClean(pending + [w]) <==> WorkClean(pending) && Clean(w.node)
    ensures WorkDirsOnly(pending + [w]) <==> WorkDirsOnly(pending) && w.node.Dir?
  {
    var next := pending + [w];
    assert next[|pending|] == w && forall i | 0 <= i < |pending| :: next[i] == pending[i];
  }

  lemma PushDirectory(path: Path, entries: seq<Entry>, n: nat, before: seq<Work>, files: seq<Path>, pending: seq<Work>)
    requires n < |entries| && entries[n].node.Dir? && EntriesRead(path, entries, n, before, files, pending)
    ensures EntriesRead(path, entries, n + 1, before, files,
                        pending + [Work(path + [entries[n].name], entries[n].node)])
  {
    var w := Work(path + [entries[n].name], entries[n].node);
    CleanPrefix(entries, n);
    NextEntry(path, entries, n);
    PushWork(pending, w);
    PushClean(pending, w);
    AddBoth(multiset(files), WorkFiles(pending), WorkFiles(before), EntryFiles(path, entries[..n]),
            Files(w.path, w.node));
    assert PreOrder(w.path, w.node) + (EntriesOrder(path, entries[..n]) + WorkOrder(before)) ==
           EntriesOrder(path, entries[..n + 1]) + WorkOrder(before);
  }

  lemma TakeFile(path: Path, entries: seq<Entry>, n: nat, before: seq<Work>, files: seq<Path>, pending: seq<Work>)
    requires n < |entries| && entries[n].node.File? && EntriesRead(path, entries, n, before, files, pending)
    ensures EntriesRead(path, entries, n + 1, before, files + [path + [entries[n].name]], pending)
  {
    CleanPrefix(entries, n);
    NextEntry(path, entries, n);
    var child := path + [entries[n].name];
    AddBoth(multiset(files), WorkFiles(pending), WorkFiles(before), EntryFiles(path, entries[..n]), multiset{child});
    assert multiset(files + [child]) == multiset(files) + multiset{child};
    assert PreOrder(child, entries[n].node) == [];
    assert [] + EntriesOrder(path, entries[..n]) == EntriesOrder(path, entries[..n]);
  }

  lemma BlockedEntry(path: Path, entries: seq<Entry>, n: nat, broken: set<Path>)
    requires n < |entries|
    requires !Clean(entries[n].node) || (entries[n].node.File? && path + [entries[n].name] in broken)
    ensures !CleanEntries(entries) || !Unbroken(EntryFiles(path, entries), broken)
  {}

  /** The entries of one directory: files are synced, directories pushed. */
  method ReadDirectory(path: Path, entries: seq<Entry>, before: seq<Work>, broken: set<Path>)
    returns (ok: bool, files: seq<Path>, pending: seq<Work>)
    requires WorkDirsOnly(before)
    ensures ok ==> EntriesRead(path, entries, |entries|, before, files, pending) && Unbroken(multiset(files), broken)
    ensures !ok ==> !CleanEntries(entries) || !Unbroken(EntryFiles(path, entries), broken)
  {
    files, pending := [], before;
    assert [] + WorkOrder(before) == WorkOrder(before);
    for n := 0 to |entries|
      invariant EntriesRead(path, entries, n, before, files, pending) && Unbroken(multiset(files), broken)
    {
      var entry := entries[n];
      var child := path + [entry.name];
      if entry.node.Symlink? || entry.node.Special? {
        BlockedEntry(path, entries, n, broken);
        return false, files, pending;
      } else if entry.node.Dir? {
        PushDirectory(path, entries, n, before, files, pending);
        pending := pending + [Work(child, entry.node)];
      } else {
        if child in broken {
          BlockedEntry(path, entries, n, broken);
          return false, files, pending;
        }
        TakeFile(path, entries, n, before, files, pending);
        files := files + [child];
      }
    }
    ok := true;
  }

  lemma PopWork(pending: seq<Work>)
    requires pending != []
    ensures var w := pending[|pending| - 1];
            var rest := pending[..|pending| - 1];
            && WorkFiles(pending) == WorkFiles(rest) + Files(w.path, w.node)
            && WorkOrder(pending) == PreOrder(w.path, w.node) + WorkOrder(rest)
            && WorkSize(pending) == WorkSize(rest) + Size(w.node)
            && (WorkClean(pending) <==> WorkClean(rest) && Clean(w.node))
  {}

  function Reverse(s: seq<Path>): (r: seq<Path>)
    ensures |r| == |s| && forall i | 0 <= i < |r| :: r[i] == s[|s| - 1 - i]
    ensures multiset(r) == multiset(s)
  {
    if s == [] then []
    else
      assert s == [s[0]] + s[1..];
      Reverse(s[1..]) + [s[0]]
  }

  predicate Syncable(at: Path, root: Node, broken: set<Path>) {
    Clean(root) && Unbroken(Files(at, root), broken) && Unbroken(Dirs(at, root), broken)
  }

  /** The worklist, part way: what is done and what is pending make up the tree. */
  ghost predicate Collected(at: Path, root: Node, pending: seq<Work>, files: seq<Path>, directories: seq<Path>) {
    && WorkDirsOnly(pending)
    && multiset(files) + WorkFiles(pending) == Files(at, root)
    && directories + WorkOrder(pending) == PreOrder(at, root)
    && (WorkClean(pending) <==> Clean(root))
  }

  lemma DirectoryDone(at: Path, root: Node, pending: seq<Work>, files: seq<Path>, directories: seq<Path>,
                      more: seq<Path>, next: seq<Work>)
    requires pending != [] && Collected(at, root, pending, files, directories)
    requires var w := pending[|pending| - 1];
             w.node.Dir? && EntriesRead(w.path, w.node.entries, |w.node.entries|, pending[..|pending| - 1], more, next)
    ensures Collected(at, root, next, files + more, directories + [pending[|pending| - 1].path])
    ensures WorkSize(next) < WorkSize(pending)
  {
    var w := pending[|pending| - 1];
    var entries, rest := w.node.entries, pending[..|pending| - 1];
    PopWork(pending);
    assert entries[..|entries|] == entries;
    assert directories + ([w.path] + EntriesOrder(w.path, entries) + WorkOrder(rest)) ==
           directories + [w.path] + (EntriesOrder(w.path, entries) + WorkOrder(rest));
  }

  /** A directory that cannot be read through makes the whole tree unsyncable. */
  lemma BlockedDirectory(at: Path, root: Node, pending: seq<Work>, files: seq<Path>, directories: seq<Path>,
                        broken: set<Path>)
    requires pending != [] && Collected(at, root, pending, files, directories)
    requires var w := pending[|pending| - 1];
             w.path in broken || !CleanEntries(w.node.entries) || !Unbroken(EntryFiles(w.path, w.node.entries), broken)
    ensures !Syncable(at, root, broken)
  {
    var w := pending[|pending| - 1];
    PopWork(pending);
    OrderMultiset(at, root);
    assert (directories + WorkOrder(pending))[|directories|] == w.path;
  }

  lemma WorklistEmpty(at: Path, root: Node, files: seq<Path>, directories: seq<Path>)
    requires Collected(at, root, [], files, directories)
    ensures multiset(files) == Files(at, root) && directories == PreOrder(at, root)
    ensures multiset(directories) == Dirs(at, root) && Clean(root)
  {
    OrderMultiset(at, root);
    assert directories + [] == directories;
  }

  /** The worklist: the directories in the order they were met, or a failure. */
  method Collect(root: Node, at: Path, broken: set<Path>) returns (ok: bool, files: seq<Path>, directories: seq<Path>)
    requires root.Dir?
    ensures ok <==> Syncable(at, root, broken)
    ensures ok ==> multiset(files) == Files(at, root) && directories == PreOrder(at, root)
  {
    var pending := [Work(at, root)];
    files, directories := [], [];
    PopWork(pending);
    while pending != []
      invariant Collected(at, root, pending, files, directories)
      invariant Unbroken(multiset(files), broken) && Unbroken(multiset(directories), broken)
      decreases WorkSize(pending)
    {
      var directory := pending[|pending| - 1];
      var path, entries := directory.path, directory.node.entries;
      if path in broken {
        BlockedDirectory(at, root, pending, files, directories, broken);
        return false, files, directories;
      }
      var read, more, next := ReadDirectory(path, entries, pending[..|pending| - 1], broken);
      if !read {
        BlockedDirectory(at, root, pending, files, directories, broken);
        return false, files, directories;
      }
      DirectoryDone(at, root, pending, files, directories, more, next);
      files := files + more;
      directories := directories + [path];
      pending := next;
    }
    WorklistEmpty(at, root, files, directories);
    ok := true;
  }

  /** Every file and directory of the tree is synced once: files before directories, and
      a directory after all below it. */
  ghost predicate Covers(log: seq<Event>, at: Path, root: Node) {
    exists files, dirs :: CoveredBy(log, at, root, files, dirs)
  }

  ghost predicate CoveredBy(log: seq<Event>, at: Path, root: Node, files: seq<Path>, dirs: seq<Path>) {
    && log == FileEvents(files) + DirEvents(dirs)
    && multiset(files) == Files(at, root) && multiset(dirs) == Dirs(at, root)
    && forall i, j | 0 <= i < j < |dirs| :: !Below(dirs[i], dirs[j])
  }

  /** Success means: no links or special entries and no failing path; each file and
      each directory synced exactly once, files first, and every directory after
      all directories below it. */
  method Sync(root: Node, at: Path, broken: set<Path>)
    returns (ok: bool, log: seq<Event>)
    requires root.Dir? && Named(root)
    ensures ok <==> Syncable(at, root, broken)
    ensures ok ==> Covers(log, at, root)
  {
    var synced, directories;
    ok, synced, directories := Collect(root, at, broken);
    OrderMultiset(at, root);
    OrderParentsFirst(at, root);
    log := FileEvents(synced) + DirEvents(Reverse(directories));
    assert ok ==> CoveredBy(log, at, root, synced, Reverse(directories));
  }

  // ---------------------------------------------------------------------
  // The same, told by the paths in the tree
  // ---------------------------------------------------------------------

  /** Following the names of `path` from `node` leads to `sub`. */
  ghost predicate LeadsTo(node: Node, path: Path, sub: Node)
    decreases |path|
  {
    if path == [] then sub == node
    else node.Dir? && exists i :: 0 <= i < |node.entries| && Through(node.entries[i], path, sub)
  }

  ghost predicate Through(entry: Entry, path: Path, sub: Node)
    requires path != []
    decreases |path|, 0
  {
    entry.name == path[0] && LeadsTo(entry.node, path[1..], sub)
  }

  ghost predicate EntriesLead(entries: seq<Entry>, path: Path, sub: Node)
    requires path != []
  {
    exists i :: 0 <= i < |entries| && Through(entries[i], path, sub)
  }

  lemma EntriesLeadOn(entries: seq<Entry>, path: Path, sub: Node)
    requires entries != [] && path != []
    ensures EntriesLead(entries, path, sub) <==>
            EntriesLead(entries[..|entries| - 1], path, sub) || Through(entries[|entries| - 1], path, sub)
  {
    var front := entries[..|entries| - 1];
    forall i | 0 <= i < |front| ensures front[i] == entries[i] {}
  }

  predicate Regular(node: Node) { node.File? || node.Dir? }

  lemma {:induction false} CleanEntry(entries: seq<Entry>, i: nat)
    requires CleanEntries(entries) && i < |entries|
    ensures Clean(entries[i].node)
  {
    if i < |entries| - 1 { CleanEntry(entries[..|entries| - 1], i); }
  }

  lemma {:induction false} CleanLeads(node: Node, path: Path, sub: Node)
    requires Clean(node) && LeadsTo(node, path, sub)
    ensures Regular(sub)
    decreases |path|
  {
    if path != [] {
      var i :| 0 <= i < |node.entries| && Through(node.entries[i], path, sub);
      CleanEntry(node.entries, i);
      CleanLeads(node.entries[i].node, path[1..], sub);
    }
  }

  lemma {:induction false} UncleanFound(node: Node) returns (path: Path, sub: Node)
    requires !Clean(node)
    ensures LeadsTo(node, path, sub) && !Regular(sub)
    decreases node, 1
  {
    path, sub := [], node;
    if node.Dir? {
      path, sub := UncleanEntry(node.entries);
      assert EntriesLead(node.entries, path, sub);
    }
  }

  lemma {:induction false} UncleanEntry(entries: seq<Entry>) returns (path: Path, sub: Node)
    requires !CleanEntries(entries)
    ensures path != [] && EntriesLead(entries, path, sub) && !Regular(sub)
    decreases entries, 0
  {
    var last := entries[|entries| - 1];
    if Clean(last.node) {
      path, sub := UncleanEntry(entries[..|entries| - 1]);
    } else {
      var below;
      below, sub := UncleanFound(last.node);
      path := [last.name] + below;
      assert path[1..] == below;
    }
    EntriesLeadOn(entries, path, sub);
  }

  /** If the path leads anywhere, it is to a file or a directory. */
  ghost predicate RegularAt(node: Node, path: Path) {
    forall sub :: LeadsTo(node, path, sub) ==> Regular(sub)
  }

  /** A tree is clean if and only if no path leads to anything but a file or a directory. */
  lemma CleanExact(node: Node)
    ensures Clean(node) <==> forall path :: RegularAt(node, path)
  {
    if Clean(node) {
      forall path, sub | LeadsTo(node, path, sub) ensures Regular(sub) { CleanLeads(node, path, sub); }
    } else {
      var path, sub := UncleanFound(node);
      assert !RegularAt(node, path);
    }
  }

  /** The files are exactly where a path leads to a file, the directories where one leads to a
      directory. */
  lemma {:induction false} FilesExact(at: Path, node: Node, p: Path)
    ensures p in Files(at, node) <==> at <= p && LeadsTo(node, p[|at|..], File)
    decreases node, 1
  {
    if node.Dir? {
      EntryFilesExact(at, node.entries, p);
      if at <= p && p[|at|..] == [] { assert !LeadsTo(node, [], File); }
    } else if at <= p && p != at {
      assert p[|at|..] != [];
    }
  }

  lemma {:induction false} EntryFilesExact(at: Path, entries: seq<Entry>, p: Path)
    ensures p in EntryFiles(at, entries) <==> at < p && EntriesLead(entries, p[|at|..], File)
    decreases entries, 0
  {
    if entries != [] {
      var last := entries[|entries| - 1];
      EntryFilesExact(at, entries[..|entries| - 1], p);
      FilesExact(at + [last.name], last.node, p);
      if at < p {
        EntriesLeadOn(entries, p[|at|..], File);
        assert p[|at|..][1..] == p[|at| + 1..];
        assert at + [last.name] <= p <==> p[|at|] == last.name;
      }
    }
  }

  lemma {:induction false} DirsExact(at: Path, node: Node, p: Path)
    ensures p in Dirs(at, node) <==> at <= p && exists sub :: LeadsTo(node, p[|at|..], sub) && sub.Dir?
    decreases node, 1
  {
    if node.Dir? {
      EntryDirsExact(at, node.entries, p);
      if at <= p {
        if p[|at|..] == [] {
          assert p == at && LeadsTo(node, p[|at|..], node);
        } else {
          forall sub ensures LeadsTo(node, p[|at|..], sub) <==> EntriesLead(node.entries, p[|at|..], sub) {}
        }
      }
    }
  }

  lemma {:induction false} EntryDirsExact(at: Path, entries: seq<Entry>, p: Path)
    ensures p in EntryDirs(at, entries) <==>
            at < p && exists sub :: EntriesLead(entries, p[|at|..], sub) && sub.Dir?
    decreases entries, 0
  {
    if entries != [] {
      var last := entries[|entries| - 1];
      EntryDirsExact(at, entries[..|entries| - 1], p);
      DirsExact(at + [last.name], last.node, p);
      if at < p {
        forall sub
          ensures EntriesLead(entries, p[|at|..], sub) <==>
                  EntriesLead(entries[..|entries| - 1], p[|at|..], sub) || Through(last, p[|at|..], sub)
        {
          EntriesLeadOn(entries, p[|at|..], sub);
        }
        assert p[|at|..][1..] == p[|at| + 1..];
        assert at + [last.name] <= p <==> p[|at|] == last.name;
      }
    }
  }
}
