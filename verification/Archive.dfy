/** Archiving the real-testnet state: a staged move over a file system that may fail at any step, with rollback. */
module Archive {
  import opened Bytes

  // ----- The file system -----

  datatype Folder = Staging | Destination

  datatype Item = ActiveState | AccountManifest | Summary | Temporary

  /** The places the routine touches: where an item lives, the two archive folders, and items inside them. */
  datatype Path = Home(item: Item) | Dir(folder: Folder) | In(folder: Folder, item: Item)

  /** A document, or the active state's directory with all that is in it, is one opaque content. */
  datatype Node = Directory | Content(content: int)

  function Lookup(nodes: map<Path, Node>, path: Path): Option<Node> {
    if path in nodes then Some(nodes[path]) else None
  }

  /** Nothing lies inside a folder that does not exist. */
  predicate IsTree(nodes: map<Path, Node>) {
    forall path | path in nodes && path.In? :: Dir(path.folder) in nodes
  }

  predicate IsEmpty(nodes: map<Path, Node>, folder: Folder) {
    forall item :: In(folder, item) !in nodes
  }

  /** Every operation is atomic: it succeeds with its whole effect, or fails, for any reason, with none. */
  class FileSystem {
    var nodes: map<Path, Node>

    /** As POSIX has it, a rename replaces whatever is at its destination. */
    method Rename(source: Path, destination: Path) returns (ok: bool)
      requires source != destination
      modifies this
      ensures ok ==> source in old(nodes) && nodes == (old(nodes) - {source})[destination := old(nodes)[source]]
      ensures !ok ==> nodes == old(nodes)
    {
      ok := *;
      if source !in nodes || (destination.In? && Dir(destination.folder) !in nodes) {
        ok := false;
      }
      if ok {
        nodes := (nodes - {source})[destination := nodes[source]];
      }
    }

    method MakeDirectory(folder: Folder) returns (ok: bool)
      modifies this
      ensures ok ==> Dir(folder) !in old(nodes) && nodes == old(nodes)[Dir(folder) := Directory]
      ensures !ok ==> nodes == old(nodes)
    {
      ok := *;
      if Dir(folder) in nodes {
        ok := false;
      }
      if ok {
        nodes := nodes[Dir(folder) := Directory];
      }
    }

    method RemoveDirectory(folder: Folder) returns (ok: bool)
      modifies this
      ensures ok ==> Dir(folder) in old(nodes) && IsEmpty(old(nodes), folder) && nodes == old(nodes) - {Dir(folder)}
      ensures !ok ==> nodes == old(nodes)
    {
      ok := *;
      if Dir(folder) !in nodes || !IsEmpty(nodes, folder) {
        ok := false;
      }
      if ok {
        nodes := nodes - {Dir(folder)};
      }
    }

    method Unlink(path: Path) returns (ok: bool)
      modifies this
      ensures ok ==> path in old(nodes) && nodes == old(nodes) - {path}
      ensures !ok ==> nodes == old(nodes)
    {
      ok := *;
      if path !in nodes {
        ok := false;
      }
      if ok {
        nodes := nodes - {path};
      }
    }

    /** None when the lookup itself fails. */
    method Exists(path: Path) returns (r: Option<bool>)
      ensures r.Some? ==> r.value == (path in nodes)
    {
      var ok: bool := *;
      return if ok then Some(path in nodes) else None;
    }

    /** Opening for exclusive creation. */
    method Create(path: Path) returns (ok: bool)
      modifies this
      ensures ok ==> path !in old(nodes) && exists c :: nodes == old(nodes)[path := Content(c)]
      ensures !ok ==> nodes == old(nodes)
    {
      ok := *;
      if path in nodes {
        ok := false;
      }
      if ok {
        var garbage: int := *;
        nodes := nodes[path := Content(garbage)];
      }
    }

    /** A failed write may leave anything in the file. */
    method Write(path: Path, content: int) returns (ok: bool)
      requires path in nodes
      modifies this
      ensures ok ==> nodes == old(nodes)[path := Content(content)]
      ensures exists c :: nodes == old(nodes)[path := Content(c)]
    {
      ok := *;
      var garbage: int := *;
      nodes := nodes[path := Content(if ok then content else garbage)];
    }
  }

  /** Any step without an effect on these paths that may fail: mode changes, syncs, re-reading what was written. */
  method Attempt() returns (ok: bool)
  {
    ok := *;
  }

  // ----- Writing the summary -----

  /** What a failed write of the summary can leave behind in the staging folder. */
  predicate IsDebris(debris: set<Path>) {
    debris <= {In(Staging, Summary), In(Staging, Temporary)}
  }

  /** `writePrivateJson` on the summary: a temporary file, renamed into place, then checked. */
  method WriteSummary(fs: FileSystem, content: int) returns (ok: bool, ghost debris: set<Path>)
    requires In(Staging, Summary) !in fs.nodes && In(Staging, Temporary) !in fs.nodes
    modifies fs
    ensures IsDebris(debris) && forall path | path in debris :: path in fs.nodes
    ensures forall path | path !in debris && path != In(Staging, Summary) ::
              Lookup(fs.nodes, path) == Lookup(old(fs.nodes), path)
    ensures ok ==> debris == {} && Lookup(fs.nodes, In(Staging, Summary)) == Some(Content(content))
    ensures !ok && In(Staging, Summary) !in debris ==> In(Staging, Summary) !in fs.nodes
  {
    debris := {};
    var target, temporary := In(Staging, Summary), In(Staging, Temporary);
    var present := fs.Exists(target);
    if present.None? {
      return false, debris;
    }
    ok := fs.Create(temporary);
    if !ok {
      return false, debris;
    }
    ok := fs.Write(temporary, content);
    if ok {
      ok := Attempt(); // sync and close
    }
    if ok {
      ok := fs.Rename(temporary, target);
    }
    if ok {
      ok := Attempt(); // mode, directory sync, reading back
      if ok {
        return true, debris;
      }
    }
    var _ := fs.Unlink(temporary);
    debris := set path | path in fs.nodes && path in {target, temporary};
    return false, debris;
  }

  // ----- Where everything is -----

  /** What the routine remembers of its own progress. */
  datatype Progress = Progress(
    active: Option<Folder>,
    manifest: Option<Folder>,
    summary: Option<Folder>,
    reservedArchive: bool)

  function LocationOf(p: Progress, item: Item): Option<Folder> {
    match item
    case ActiveState => p.active
    case AccountManifest => p.manifest
    case Summary => p.summary
    case Temporary => None
  }

  /** What must be at a path after this progress from the file system `base`, staging folder included. */
  function NodeAt(base: map<Path, Node>, p: Progress, summary: int, path: Path): Option<Node> {
    match path
    case Home(item) => if item != Summary && LocationOf(p, item).Some? then None else Lookup(base, path)
    case Dir(Staging) => Some(Directory)
    case Dir(Destination) => if p.reservedArchive then Some(Directory) else Lookup(base, path)
    case In(folder, item) =>
      if LocationOf(p, item) != Some(folder) then Lookup(base, path)
      else if item == Summary then Some(Content(summary))
      else Lookup(base, Home(item))
  }

  /** The file system is `base` after this progress, but for the debris, which is there. */
  ghost predicate Laid(nodes: map<Path, Node>, base: map<Path, Node>, p: Progress, summary: int, debris: set<Path>) {
    && (forall path | path in debris :: path in nodes)
    && (forall path | path !in debris :: Lookup(nodes, path) == NodeAt(base, p, summary, path))
  }

  /** A file system and a progress from it that can come about. */
  predicate Reachable(base: map<Path, Node>, p: Progress) {
    && IsTree(base) && Dir(Staging) !in base
    && (p.reservedArchive ==> Dir(Destination) !in base)
    && (p.active.Some? ==> Home(ActiveState) in base)
    && (p.manifest.Some? ==> Home(AccountManifest) in base)
    && (!p.reservedArchive ==> p.active != Some(Destination) && p.manifest != Some(Destination)
                               && p.summary != Some(Destination))
  }

  // ----- The results -----

  /** An item that was at home in `base` is in exactly one place, and nothing of it is anywhere else. */
  predicate KeptAt(nodes: map<Path, Node>, base: map<Path, Node>, item: Item, location: Option<Folder>) {
    && Lookup(nodes, Home(item)) == (if location.None? then Lookup(base, Home(item)) else None)
    && Lookup(nodes, In(Staging, item)) == (if location == Some(Staging) then Lookup(base, Home(item)) else None)
    && Lookup(nodes, In(Destination, item)) == (if location == Some(Destination) then Lookup(base, Home(item))
                                                else Lookup(base, In(Destination, item)))
    && (location == Some(Destination) ==> In(Destination, item) !in base)
  }

  ghost predicate Kept(nodes: map<Path, Node>, base: map<Path, Node>) {
    && (exists location :: KeptAt(nodes, base, ActiveState, location))
    && (exists location :: KeptAt(nodes, base, AccountManifest, location))
  }

  lemma LaidIsKept(nodes: map<Path, Node>, base: map<Path, Node>, p: Progress, summary: int, debris: set<Path>)
    requires Laid(nodes, base, p, summary, debris) && Reachable(base, p) && IsDebris(debris)
    ensures Kept(nodes, base)
  {
    assert KeptAt(nodes, base, ActiveState, p.active);
    assert KeptAt(nodes, base, AccountManifest, p.manifest);
  }

  /** What an archived file system holds at a path. */
  function ArchivedAt(base: map<Path, Node>, summary: int, path: Path): Option<Node> {
    match path
    case Home(item) => if item == ActiveState || item == AccountManifest then None else Lookup(base, path)
    case Dir(folder) => if folder == Destination then Some(Directory) else None
    case In(Staging, _) => None
    case In(Destination, item) =>
      if item == Summary then Some(Content(summary)) else if item == Temporary then None else Lookup(base, Home(item))
  }

  /** Archiving leaves both items in the archive and nowhere else. */
  lemma ArchivedIsKept(nodes: map<Path, Node>, base: map<Path, Node>, summary: int)
    requires forall path :: Lookup(nodes, path) == ArchivedAt(base, summary, path)
    requires IsTree(base) && Dir(Destination) !in base
    ensures Kept(nodes, base)
  {
    assert KeptAt(nodes, base, ActiveState, Some(Destination));
    assert KeptAt(nodes, base, AccountManifest, Some(Destination));
  }

  datatype Hook = NoHook | Hook(createsArchive: bool, throws: bool)

  function AfterHook(nodes: map<Path, Node>, hook: Hook): (after: map<Path, Node>)
    ensures forall path | path != Dir(Destination) :: Lookup(after, path) == Lookup(nodes, path)
  {
    if hook.Hook? && hook.createsArchive && Dir(Destination) !in nodes then nodes[Dir(Destination) := Directory]
    else nodes
  }

  /** How the routine ends: with the archive, or with an error before staging, after a full rollback, or
      after an incomplete one, which is an aggregate error. */
  datatype Outcome = Archived | Refused | RolledBack | Incomplete

  // ----- One step at a time -----

  function PathOf(p: Progress, item: Item): Path {
    if LocationOf(p, item).None? then Home(item) else In(LocationOf(p, item).value, item)
  }

  function WithLocation(p: Progress, item: Item, location: Option<Folder>): Progress {
    match item
    case ActiveState => p.(active := location)
    case AccountManifest => p.(manifest := location)
    case Summary => p.(summary := location)
    case Temporary => p
  }

  function Renamed(nodes: map<Path, Node>, source: Path, destination: Path): map<Path, Node>
    requires source in nodes
  {
    (nodes - {source})[destination := nodes[source]]
  }

  /** Both folders are new, so wherever an item has been put, nothing was there before. */
  lemma NothingInside(base: map<Path, Node>, p: Progress, folder: Folder, item: Item)
    requires Reachable(base, p) && LocationOf(p, item) == Some(folder)
    ensures In(folder, item) !in base
  {
    assert folder == Staging || folder == Destination;
    match item
    case ActiveState => assert Dir(folder) !in base;
    case AccountManifest => assert Dir(folder) !in base;
    case Summary => assert Dir(folder) !in base;
  }

  /** Moving an item into a folder, where nothing can be in its way. */
  lemma MoveStep(nodes: map<Path, Node>, base: map<Path, Node>, p: Progress, summary: int, item: Item, folder: Folder)
    requires Laid(nodes, base, p, summary, {}) && Reachable(base, p)
    requires item != Temporary && LocationOf(p, item) != Some(folder) && (item == Summary ==> p.summary.Some?)
    requires folder == Destination ==> p.reservedArchive
    requires PathOf(p, item) in nodes
    ensures In(folder, item) !in nodes
    ensures var q := WithLocation(p, item, Some(folder));
            && Reachable(base, q)
            && Laid(Renamed(nodes, PathOf(p, item), In(folder, item)), base, q, summary, {})
  {
    var source, destination := PathOf(p, item), In(folder, item);
    assert Lookup(nodes, destination) == NodeAt(base, p, summary, destination) == None;
    assert Lookup(nodes, source) == NodeAt(base, p, summary, source);
    var next, q := Renamed(nodes, source, destination), WithLocation(p, item, Some(folder));
    if source.In? {
      NothingInside(base, p, source.folder, item);
    }
    forall path ensures Lookup(next, path) == NodeAt(base, q, summary, path) {
      assert Lookup(nodes, path) == NodeAt(base, p, summary, path);
    }
  }

  /** Moving an item back home, which is free. */
  lemma ReturnStep(nodes: map<Path, Node>, base: map<Path, Node>, p: Progress, summary: int, debris: set<Path>,
                   item: Item)
    requires Laid(nodes, base, p, summary, debris) && Reachable(base, p) && IsDebris(debris)
    requires item == ActiveState || item == AccountManifest
    requires LocationOf(p, item).Some? && PathOf(p, item) in nodes
    ensures Home(item) !in nodes
    ensures var q := WithLocation(p, item, None);
            && Reachable(base, q)
            && Laid(Renamed(nodes, PathOf(p, item), Home(item)), base, q, summary, debris)
  {
    var source := PathOf(p, item);
    assert Lookup(nodes, Home(item)) == NodeAt(base, p, summary, Home(item)) == None;
    assert Lookup(nodes, source) == NodeAt(base, p, summary, source);
    var next, q := Renamed(nodes, source, Home(item)), WithLocation(p, item, None);
    NothingInside(base, p, source.folder, item);
    forall path | path !in debris ensures Lookup(next, path) == NodeAt(base, q, summary, path) {
      assert Lookup(nodes, path) == NodeAt(base, p, summary, path);
    }
  }

  lemma HookStep(nodes: map<Path, Node>, base: map<Path, Node>, p: Progress, summary: int, hook: Hook)
    requires Laid(nodes, base, p, summary, {}) && Reachable(base, p) && !p.reservedArchive
    ensures Reachable(AfterHook(base, hook), p)
    ensures Laid(AfterHook(nodes, hook), AfterHook(base, hook), p, summary, {})
  {
    assert Lookup(nodes, Dir(Destination)) == NodeAt(base, p, summary, Dir(Destination));
  }

  lemma ReserveStep(nodes: map<Path, Node>, base: map<Path, Node>, p: Progress, summary: int)
    requires Laid(nodes, base, p, summary, {}) && Reachable(base, p) && Dir(Destination) !in nodes
    requires !p.reservedArchive
    ensures Reachable(base, p.(reservedArchive := true))
    ensures Laid(nodes[Dir(Destination) := Directory], base, p.(reservedArchive := true), summary, {})
  {
    assert Lookup(nodes, Dir(Destination)) == NodeAt(base, p, summary, Dir(Destination));
  }

  lemma NoSummaryYet(nodes: map<Path, Node>, base: map<Path, Node>, p: Progress, summary: int)
    requires Laid(nodes, base, p, summary, {}) && Reachable(base, p) && p.summary.None?
    ensures In(Staging, Summary) !in nodes && In(Staging, Temporary) !in nodes
  {
    assert Lookup(nodes, In(Staging, Summary)) == NodeAt(base, p, summary, In(Staging, Summary));
    assert Lookup(nodes, In(Staging, Temporary)) == NodeAt(base, p, summary, In(Staging, Temporary));
  }

  lemma SummaryStep(nodes: map<Path, Node>, next: map<Path, Node>, base: map<Path, Node>, p: Progress, summary: int,
                    debris: set<Path>)
    requires Laid(nodes, base, p, summary, {}) && Reachable(base, p) && p.summary.None? && IsDebris(debris)
    requires forall path | path !in debris && path != In(Staging, Summary) :: Lookup(next, path) == Lookup(nodes, path)
    requires forall path | path in debris :: path in next
    ensures debris == {} && Lookup(next, In(Staging, Summary)) == Some(Content(summary)) ==>
              Laid(next, base, p.(summary := Some(Staging)), summary, {})
    ensures Reachable(base, p.(summary := Some(Staging)))
    ensures In(Staging, Summary) in debris || In(Staging, Summary) !in next ==> Laid(next, base, p, summary, debris)
  {
  }

  /** When all is moved and the staging folder is gone, the archive holds everything. */
  lemma AllMoved(nodes: map<Path, Node>, base: map<Path, Node>, p: Progress, summary: int)
    requires Laid(nodes, base, p, summary, {}) && Reachable(base, p) && p.reservedArchive
    requires IsEmpty(nodes, Staging) && p.summary == Some(Destination)
    requires Home(ActiveState) in base ==> p.active == Some(Destination)
    requires Home(AccountManifest) in base ==> p.manifest == Some(Destination)
    ensures forall path :: Lookup(nodes - {Dir(Staging)}, path) == ArchivedAt(base, summary, path)
    ensures Dir(Destination) !in base
  {
    forall path ensures Lookup(nodes - {Dir(Staging)}, path) == ArchivedAt(base, summary, path) {
      assert Lookup(nodes, path) == NodeAt(base, p, summary, path);
    }
  }

  /** When all is back and both folders are as they were, nothing at all has changed. */
  lemma AllBack(nodes: map<Path, Node>, base: map<Path, Node>, p: Progress, summary: int)
    requires Laid(nodes, base, p, summary, {}) && Reachable(base, p)
    requires p == Progress(None, None, None, false)
    ensures nodes - {Dir(Staging)} == base
  {
    forall path ensures Lookup(nodes - {Dir(Staging)}, path) == Lookup(base, path) {
      assert Lookup(nodes, path) == NodeAt(base, p, summary, path);
    }
    SameLookups(nodes - {Dir(Staging)}, base);
  }

  lemma SameLookups(a: map<Path, Node>, b: map<Path, Node>)
    requires forall path :: Lookup(a, path) == Lookup(b, path)
    ensures a == b
  {
    forall path ensures path in a <==> path in b {
      assert Lookup(a, path) == Lookup(b, path);
    }
    forall path | path in a ensures a[path] == b[path] {
      assert Lookup(a, path) == Lookup(b, path);
    }
  }

  // ----- The routine -----

  /** The body of the try block, up to where it stops. */
  method TryArchive(fs: FileSystem, hasManifest: bool, summary: int, hook: Hook)
    returns (ok: bool, p: Progress, ghost base: map<Path, Node>, ghost debris: set<Path>)
    requires Laid(fs.nodes, fs.nodes - {Dir(Staging)}, Progress(None, None, None, false), summary, {})
    requires Reachable(fs.nodes - {Dir(Staging)}, Progress(None, None, None, false))
    requires hasManifest <==> Home(AccountManifest) in fs.nodes
    modifies fs
    ensures var before := old(fs.nodes) - {Dir(Staging)};
            && (base == before || base == AfterHook(before, hook))
            && Reachable(base, p) && IsDebris(debris)
    ensures ok ==> forall path :: Lookup(fs.nodes, path) == ArchivedAt(base, summary, path)
    ensures ok ==> Dir(Destination) !in base
    ensures !ok ==> Laid(fs.nodes, base, p, summary, debris) && (debris != {} ==> p.summary.None? && !p.reservedArchive)
  {
    hide Laid;
    hide Reachable;
    hide AfterHook;
    p, base, debris := Progress(None, None, None, false), fs.nodes - {Dir(Staging)}, {};
    var activeExists := fs.Exists(Home(ActiveState));
    if activeExists.None? {
      return false, p, base, debris;
    }
    label Staged:
    if activeExists.value {
      ok := fs.Rename(Home(ActiveState), In(Staging, ActiveState));
      if !ok {
        return false, p, base, debris;
      }
      MoveStep(old@Staged(fs.nodes), base, p, summary, ActiveState, Staging);
      p := p.(active := Some(Staging));
    }
    label ActiveMoved:
    if hasManifest {
      ok := fs.Rename(Home(AccountManifest), In(Staging, AccountManifest));
      if !ok {
        return false, p, base, debris;
      }
      MoveStep(old@ActiveMoved(fs.nodes), base, p, summary, AccountManifest, Staging);
      p := p.(manifest := Some(Staging));
    }
    label BothMoved:
    NoSummaryYet(fs.nodes, base, p, summary);
    ok, debris := WriteSummary(fs, summary);
    SummaryStep(old@BothMoved(fs.nodes), fs.nodes, base, p, summary, debris);
    if !ok {
      return false, p, base, debris;
    }
    p := p.(summary := Some(Staging));
    if hook.Hook? {
      HookStep(fs.nodes, base, p, summary, hook);
      fs.nodes := AfterHook(fs.nodes, hook);
      base := AfterHook(base, hook);
      if hook.throws {
        return false, p, base, debris;
      }
    }
    assert Lookup(base, Home(ActiveState)).Some? == activeExists.value;
    assert Lookup(base, Home(AccountManifest)).Some? == hasManifest;
    ok, p := Publish(fs, base, p, summary);
  }

  /** From the reservation of the archive directory to the removal of the staging directory. */
  method Publish(fs: FileSystem, ghost base: map<Path, Node>, start: Progress, summary: int)
    returns (ok: bool, p: Progress)
    requires Laid(fs.nodes, base, start, summary, {}) && Reachable(base, start)
    requires start.summary == Some(Staging) && !start.reservedArchive
    requires start.active == if Home(ActiveState) in base then Some(Staging) else None
    requires start.manifest == if Home(AccountManifest) in base then Some(Staging) else None
    modifies fs
    ensures Reachable(base, p)
    ensures ok ==> Dir(Destination) !in base
    ensures ok ==> forall path :: Lookup(fs.nodes, path) == ArchivedAt(base, summary, path)
    ensures !ok ==> Laid(fs.nodes, base, p, summary, {})
  {
    hide Laid;
    hide Reachable;
    hide ArchivedAt;
    p := start;
    label Start:
    ok := fs.MakeDirectory(Destination);
    if !ok {
      return;
    }
    ReserveStep(old@Start(fs.nodes), base, p, summary);
    p := p.(reservedArchive := true);
    ok := Attempt(); // mode
    if !ok {
      return;
    }
    label Reserved:
    if p.active == Some(Staging) {
      ok := fs.Rename(In(Staging, ActiveState), In(Destination, ActiveState));
      if !ok {
        return;
      }
      MoveStep(old@Reserved(fs.nodes), base, p, summary, ActiveState, Destination);
      p := p.(active := Some(Destination));
    }
    label ActiveMoved:
    if p.manifest == Some(Staging) {
      ok := fs.Rename(In(Staging, AccountManifest), In(Destination, AccountManifest));
      if !ok {
        return;
      }
      MoveStep(old@ActiveMoved(fs.nodes), base, p, summary, AccountManifest, Destination);
      p := p.(manifest := Some(Destination));
    }
    label BothMoved:
    ok := fs.Rename(In(Staging, Summary), In(Destination, Summary));
    if !ok {
      return;
    }
    MoveStep(old@BothMoved(fs.nodes), base, p, summary, Summary, Destination);
    p := p.(summary := Some(Destination));
    label Moved:
    ok := fs.RemoveDirectory(Staging);
    if ok {
      AllMoved(old@Moved(fs.nodes), base, p, summary);
    }
  }

  // ----- Rollback -----

  lemma UnlinkStep(nodes: map<Path, Node>, base: map<Path, Node>, p: Progress, summary: int)
    requires Laid(nodes, base, p, summary, {}) && Reachable(base, p) && p.summary.Some?
    ensures Reachable(base, p.(summary := None))
    ensures Laid(nodes - {In(p.summary.value, Summary)}, base, p.(summary := None), summary, {})
  {
    var source := In(p.summary.value, Summary);
    NothingInside(base, p, p.summary.value, Summary);
    forall path ensures Lookup(nodes - {source}, path) == NodeAt(base, p.(summary := None), summary, path) {
      assert Lookup(nodes, path) == NodeAt(base, p, summary, path);
    }
  }

  lemma ReleaseStep(nodes: map<Path, Node>, base: map<Path, Node>, p: Progress, summary: int)
    requires Laid(nodes, base, p, summary, {}) && Reachable(base, p) && p.reservedArchive
    requires IsEmpty(nodes, Destination)
    ensures Reachable(base, p.(reservedArchive := false))
    ensures Laid(nodes - {Dir(Destination)}, base, p.(reservedArchive := false), summary, {})
  {
    forall item ensures LocationOf(p, item) != Some(Destination) {
      assert Lookup(nodes, In(Destination, item)) == NodeAt(base, p, summary, In(Destination, item));
    }
    assert LocationOf(p, ActiveState) != Some(Destination) && LocationOf(p, AccountManifest) != Some(Destination)
           && LocationOf(p, Summary) != Some(Destination);
    var next := nodes - {Dir(Destination)};
    forall path ensures Lookup(next, path) == NodeAt(base, p.(reservedArchive := false), summary, path) {
      assert Lookup(nodes, path) == NodeAt(base, p, summary, path);
    }
  }

  /** An empty staging folder means that no item and no debris is in it. */
  lemma EmptyStaging(nodes: map<Path, Node>, base: map<Path, Node>, p: Progress, summary: int, debris: set<Path>)
    requires Laid(nodes, base, p, summary, debris) && Reachable(base, p) && IsDebris(debris)
    requires IsEmpty(nodes, Staging)
    ensures p.active != Some(Staging) && p.manifest != Some(Staging) && p.summary != Some(Staging) && debris == {}
  {
    assert debris == {};
    assert Lookup(nodes, In(Staging, ActiveState)) == NodeAt(base, p, summary, In(Staging, ActiveState));
    assert Lookup(nodes, In(Staging, AccountManifest)) == NodeAt(base, p, summary, In(Staging, AccountManifest));
    assert Lookup(nodes, In(Staging, Summary)) == NodeAt(base, p, summary, In(Staging, Summary));
  }

  /** The file system once the staging folder is gone, or not. */
  function WithoutStaging(laid: map<Path, Node>, removed: bool): map<Path, Node> {
    if removed then laid - {Dir(Staging)} else laid
  }

  /** A rollback is complete exactly when the file system is what it was; either way nothing is lost. */
  lemma RollbackSettles(laid: map<Path, Node>, base: map<Path, Node>, p: Progress, summary: int, debris: set<Path>,
                        removed: bool)
    requires Laid(laid, base, p, summary, debris) && Reachable(base, p) && IsDebris(debris)
    requires removed ==> p.summary != Some(Staging) && debris == {}
    ensures Kept(WithoutStaging(laid, removed), base)
    ensures WithoutStaging(laid, removed) == base <==>
            removed && p.active.None? && p.manifest.None? && !p.reservedArchive
  {
    hide Kept;
    var nodes := WithoutStaging(laid, removed);
    RemovalKeeps(laid, base, p, summary, debris, removed);
    if removed && p.active.None? && p.manifest.None? && !p.reservedArchive {
      if p.summary.Some? {
        TwoFolders(p.summary.value);
      }
      AllBack(laid, base, p, summary);
    }
    if nodes == base {
      assert Lookup(laid, Home(ActiveState)) == NodeAt(base, p, summary, Home(ActiveState));
      assert Lookup(laid, Home(AccountManifest)) == NodeAt(base, p, summary, Home(AccountManifest));
      assert Lookup(laid, Dir(Destination)) == NodeAt(base, p, summary, Dir(Destination));
      assert Lookup(laid, Dir(Staging)) == NodeAt(base, p, summary, Dir(Staging));
    }
  }

  lemma TwoFolders(folder: Folder)
    ensures folder == Staging || folder == Destination
  {
  }

  lemma RemovalKeeps(laid: map<Path, Node>, base: map<Path, Node>, p: Progress, summary: int, debris: set<Path>,
                     removed: bool)
    requires Laid(laid, base, p, summary, debris) && Reachable(base, p) && IsDebris(debris)
    ensures Kept(WithoutStaging(laid, removed), base)
  {
    LaidIsKept(laid, base, p, summary, debris);
    var nodes := WithoutStaging(laid, removed);
    assert forall path: Path | path.Home? || path.In? :: Lookup(nodes, path) == Lookup(laid, path);
    var a :| KeptAt(laid, base, ActiveState, a);
    var m :| KeptAt(laid, base, AccountManifest, m);
    assert KeptAt(nodes, base, ActiveState, a) && KeptAt(nodes, base, AccountManifest, m);
  }

  /** One item back home, if it was moved at all. */
  method ReturnHome(fs: FileSystem, ghost base: map<Path, Node>, ghost p: Progress, summary: int,
                    ghost debris: set<Path>, item: Item, location: Option<Folder>)
    returns (ok: bool, ghost q: Progress)
    requires Laid(fs.nodes, base, p, summary, debris) && Reachable(base, p) && IsDebris(debris)
    requires LocationOf(p, item) == location && (item == ActiveState || item == AccountManifest)
    modifies fs
    ensures q == if ok then WithLocation(p, item, None) else p
    ensures !ok ==> location.Some?
    ensures Laid(fs.nodes, base, q, summary, debris) && Reachable(base, q)
  {
    hide Laid;
    hide Reachable;
    hide IsDebris;
    ok, q := true, p;
    if location.Some? {
      ok := fs.Rename(In(location.value, item), Home(item));
      if ok {
        ReturnStep(old(fs.nodes), base, p, summary, debris, item);
        q := WithLocation(p, item, None);
      }
    }
  }

  /** The summary, whose removal may fail unnoticed, and the two folders, whose removal may not. */
  method RemoveFolders(fs: FileSystem, ghost base: map<Path, Node>, ghost start: Progress, summary: int,
                       ghost debris: set<Path>, summaryLocation: Option<Folder>, reservedArchive: bool)
    returns (ok: bool)
    requires Laid(fs.nodes, base, start, summary, debris) && Reachable(base, start) && IsDebris(debris)
    requires start.summary == summaryLocation && start.reservedArchive == reservedArchive
    requires debris != {} ==> start.summary.None? && !start.reservedArchive
    modifies fs
    ensures Kept(fs.nodes, base)
    ensures fs.nodes == base <==> ok && start.active.None? && start.manifest.None?
  {
    hide Laid;
    hide Reachable;
    hide IsDebris;
    hide Kept;
    ghost var p := start;
    if summaryLocation.Some? {
      var unlinked := fs.Unlink(In(summaryLocation.value, Summary));
      if unlinked {
        UnlinkStep(old(fs.nodes), base, p, summary);
        p := p.(summary := None);
      }
    }
    ghost var laid := fs.nodes;
    ok := fs.RemoveDirectory(Staging);
    ghost var removed := ok;
    if removed {
      EmptyStaging(laid, base, p, summary, debris);
    }
    label StagingGone:
    if reservedArchive {
      var released := fs.RemoveDirectory(Destination);
      if released {
        StillEmpty(laid, removed);
        ReleaseStep(laid, base, p, summary);
        laid, p := laid - {Dir(Destination)}, p.(reservedArchive := false);
        assert fs.nodes == WithoutStaging(laid, removed);
      }
      ok := ok && released;
    }
    RollbackSettles(laid, base, p, summary, debris, removed);
  }

  lemma StillEmpty(laid: map<Path, Node>, removed: bool)
    requires IsEmpty(WithoutStaging(laid, removed), Destination)
    ensures IsEmpty(laid, Destination)
  {
    forall item: Item ensures In(Destination, item) !in laid {
      assert In(Destination, item) !in WithoutStaging(laid, removed);
    }
  }

  /** The catch block. */
  method RollBack(fs: FileSystem, ghost base: map<Path, Node>, p: Progress, summary: int, ghost debris: set<Path>)
    returns (complete: bool)
    requires Laid(fs.nodes, base, p, summary, debris) && Reachable(base, p) && IsDebris(debris)
    requires debris != {} ==> p.summary.None? && !p.reservedArchive
    modifies fs
    ensures complete <==> fs.nodes == base
    ensures Kept(fs.nodes, base)
  {
    hide Laid;
    hide Reachable;
    hide IsDebris;
    hide Kept;
    ghost var q;
    var manifestBack, activeBack;
    manifestBack, q := ReturnHome(fs, base, p, summary, debris, AccountManifest, p.manifest);
    activeBack, q := ReturnHome(fs, base, q, summary, debris, ActiveState, p.active);
    var removed := RemoveFolders(fs, base, q, summary, debris, p.summary, p.reservedArchive);
    return manifestBack && activeBack && removed;
  }

  // ----- What may be archived -----

  datatype Stage = Registered | AccountCommitted | SpendSubmitted | SpendCommitted

  datatype RunDocument = RunDocument(stage: Stage, accountId: Option<string>, accountCreationHash: Option<string>,
                                     spendHash: Option<string>)

  datatype ManifestDocument = ManifestDocument(accountId: string, stateTxHash: string)

  /** What was read: `manifestExisted` comes from an earlier look than the manifest itself. */
  datatype Loaded = Loaded(manifestExisted: bool, recovery: bool, run: Option<RunDocument>,
                           manifest: Option<ManifestDocument>)

  /** `validateArchiveState`. */
  predicate CanArchive(l: Loaded) {
    && l.manifestExisted == l.manifest.Some?
    && if l.manifest.None? then
         && l.recovery && l.run.Some? && l.run.value.stage == Registered
         && l.run.value.accountId.None? && l.run.value.accountCreationHash.None? && l.run.value.spendHash.None?
       else if l.run.None? then !l.recovery
       else
         && l.run.value.stage != Registered
         && l.run.value.accountId == Some(l.manifest.value.accountId)
         && l.run.value.accountCreationHash == Some(l.manifest.value.stateTxHash)
  }

  /** What a run of the demo leaves behind before it has an account, when only the account is left, and at a stage of
      an account's run. */
  function RegisteredOnly(): Loaded {
    Loaded(false, true, Some(RunDocument(Registered, None, None, None)), None)
  }

  function ManifestOnly(m: ManifestDocument): Loaded {
    Loaded(true, false, None, Some(m))
  }

  function AccountRun(m: ManifestDocument, recovery: bool, stage: Stage, spendHash: Option<string>): Loaded {
    Loaded(true, recovery, Some(RunDocument(stage, Some(m.accountId), Some(m.stateTxHash), spendHash)), Some(m))
  }

  /** Exactly these are archived: a manifest and a run only when both are about the same account. */
  lemma ArchivableExactly(l: Loaded)
    ensures CanArchive(l) <==>
            || l == RegisteredOnly()
            || (exists m :: l == ManifestOnly(m))
            || (exists m, recovery, stage, spendHash ::
                  stage != Registered && l == AccountRun(m, recovery, stage, spendHash))
  {
    if CanArchive(l) && l.manifest.Some? {
      if l.run.None? {
        assert l == ManifestOnly(l.manifest.value);
      } else {
        assert l == AccountRun(l.manifest.value, l.recovery, l.run.value.stage, l.run.value.spendHash);
      }
    }
  }

  method ValidateArchiveState(l: Loaded) returns (ok: bool)
    ensures ok <==> CanArchive(l)
    ensures ok && l.run.Some? && l.manifest.Some? ==>
              && l.run.value.accountId == Some(l.manifest.value.accountId)
              && l.run.value.accountCreationHash == Some(l.manifest.value.stateTxHash)
              && l.run.value.stage != Registered
    ensures ok && l.manifest.None? ==> l == RegisteredOnly()
  {
    if l.manifest.Some? != l.manifestExisted {
      return false;
    }
    if l.manifest.None? {
      return l.recovery && l.run == Some(RunDocument(Registered, None, None, None));
    }
    if !l.recovery && l.run.None? {
      return true;
    }
    if l.run.None? || l.run.value.stage == Registered {
      return false;
    }
    if l.run.value.accountId != Some(l.manifest.value.accountId) {
      return false;
    }
    return l.run.value.accountCreationHash == Some(l.manifest.value.stateTxHash);
  }

  /** What was read agrees with the file system it was read from. */
  predicate IsReadFrom(l: Loaded, nodes: map<Path, Node>) {
    && (l.manifest.Some? <==> Home(AccountManifest) in nodes)
    && (l.recovery || l.run.Some? ==> Home(ActiveState) in nodes)
  }

  lemma StagedIsLaid(nodes: map<Path, Node>, summary: int)
    requires IsTree(nodes) && Dir(Staging) !in nodes
    ensures var staged := nodes[Dir(Staging) := Directory];
            && staged - {Dir(Staging)} == nodes
            && Reachable(nodes, Progress(None, None, None, false))
            && Laid(staged, nodes, Progress(None, None, None, false), summary, {})
  {
    var staged := nodes[Dir(Staging) := Directory];
    assert staged - {Dir(Staging)} == nodes;
  }

  /**
   * `archiveRealTestnetState`. `base` is the file system as found, with the directory the hook made if it
   * ran. Success leaves exactly the archive; an ordinary error after staging leaves exactly `base`; anything
   * else is reported as an incomplete rollback; and however it ends, the active state and the manifest
   * are each in exactly one place.
   */
  method ArchiveRealTestnetState(fs: FileSystem, loaded: Loaded, summary: int, hook: Hook)
    returns (outcome: Outcome, ghost base: map<Path, Node>)
    requires IsTree(fs.nodes) && IsReadFrom(loaded, fs.nodes)
    modifies fs
    ensures base == old(fs.nodes) || base == AfterHook(old(fs.nodes), hook)
    ensures outcome == Archived ==>
              && CanArchive(loaded) && (Home(ActiveState) in base || Home(AccountManifest) in base)
              && Dir(Staging) !in base && Dir(Destination) !in base
              && forall path :: Lookup(fs.nodes, path) == ArchivedAt(base, summary, path)
    ensures outcome == Refused ==> fs.nodes == base == old(fs.nodes)
    ensures outcome == RolledBack ==> fs.nodes == base && Dir(Staging) !in base
    ensures outcome == Incomplete ==> fs.nodes != base
    ensures !CanArchive(loaded) ==> outcome == Refused
    ensures outcome != Refused && loaded.run.Some? && loaded.manifest.Some? ==>
              && loaded.run.value.accountId == Some(loaded.manifest.value.accountId)
              && loaded.run.value.accountCreationHash == Some(loaded.manifest.value.stateTxHash)
              && loaded.run.value.stage != Registered
    ensures outcome != Refused ==> Kept(fs.nodes, base)
  {
    hide Laid;
    hide Kept;
    hide ArchivedAt;
    base := fs.nodes;
    var valid := ValidateArchiveState(loaded);
    if !valid {
      return Refused, base;
    }
    var parents := Attempt(); // creating and securing the parent directories
    if !parents {
      return Refused, base;
    }
    var stagingExists := fs.Exists(Dir(Staging));
    if stagingExists != Some(false) {
      return Refused, base;
    }
    var made := fs.MakeDirectory(Staging);
    if !made {
      return Refused, base;
    }
    StagedIsLaid(base, summary);
    var ok: bool, progress: Progress;
    ghost var debris: set<Path>;
    ok, progress, base, debris := TryArchive(fs, loaded.manifest.Some?, summary, hook);
    assert Lookup(base, Home(ActiveState)) == Lookup(old(fs.nodes), Home(ActiveState));
    assert Lookup(base, Home(AccountManifest)) == Lookup(old(fs.nodes), Home(AccountManifest));
    if ok {
      ArchivedIsKept(fs.nodes, base, summary);
      return Archived, base;
    }
    var complete := RollBack(fs, base, progress, summary, debris);
    return if complete then RolledBack else Incomplete, base;
  }
}
