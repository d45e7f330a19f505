/** The multi-file commit: prepare every new file beside its target, move every original aside,
    install, and put everything back when any step raises. */
module Commits {
  import opened Options
  import opened FileSystems

  const DEFAULT_MODE := 420

  datatype Baseline = Absent | Present(data: Bytes, mode: nat)

  datatype Action = Write | Delete | Verify

  datatype StagedFile = StagedFile(path: Path, content: Option<string>, baseline: Baseline, mode: Option<nat>,
          action: Action)
  {
    /** What the dataclass enforces on construction, and the root is not a file to stage. */
    predicate WellFormed() {
      path != [] && (action.Write? ==> content.Some?)
    }

    function NewFile(): File
      requires content.Some?
    {
      File(Text(content.value), if mode.Some? then mode.value else DEFAULT_MODE)
    }
  }

  datatype Cause = Duplicate | Conflict(path: Path) | Io

  datatype Outcome = Committed | Failed(cause: Cause) | RollbackFailed(recovery: map<Path, Path>)

  predicate Matches(b: Baseline, p: Path, files: Files, dirs: set<Path>) {
    match b
    case Absent => p !in files && p !in dirs
    case Present(data, mode) => p in files && files[p] == File(data, mode)
  }

  function Capture(p: Path, files: Files): Baseline {
    if p in files then Present(files[p].data, files[p].mode) else Absent
  }

  /** A baseline taken on one disk holds on another exactly if both have the same file there, bytes and mode,
      or neither has one and the second has no directory there. */
  lemma CapturedMatchesIff(p: Path, s1: Files, s2: Files, d2: set<Path>)
    ensures Matches(Capture(p, s1), p, s2, d2) <==>
              if p in s1 then p in s2 && s2[p].data == s1[p].data && s2[p].mode == s1[p].mode
              else p !in s2 && p !in d2
  {
  }

  ghost predicate WellFormedSet(changes: seq<StagedFile>) {
    forall c | c in changes :: c.WellFormed()
  }

  ghost predicate UniquePaths(changes: seq<StagedFile>) {
    forall i, j | 0 <= i < j < |changes| :: changes[i].path != changes[j].path
  }

  /** The new file each write installs. */
  ghost function News(changes: seq<StagedFile>): map<Path, File>
    requires WellFormedSet(changes)
  {
    if changes == [] then map[]
    else
      var c := changes[|changes| - 1];
      assert c in changes;
      var rest := News(changes[..|changes| - 1]);
      if c.action.Write? then rest[c.path := c.NewFile()] else rest
  }

  ghost function Targets(changes: seq<StagedFile>): set<Path> {
    set c | c in changes :: c.path
  }

  /** The directories the targets are to lie in. */
  function Prefixes(changes: seq<StagedFile>): set<Path> {
    set c, k | c in changes && 0 <= k < |c.path| :: c.path[..k]
  }

  function Mutations(changes: seq<StagedFile>): (m: seq<StagedFile>)
    ensures forall c :: c in m <==> c in changes && !c.action.Verify?
  {
    if changes == [] then []
    else
      var c := changes[|changes| - 1];
      var rest := Mutations(changes[..|changes| - 1]);
      if c.action.Verify? then rest else rest + [c]
  }

  lemma MutationsUnique(changes: seq<StagedFile>)
    requires UniquePaths(changes)
    ensures UniquePaths(Mutations(changes))
  {
    if changes != [] {
      MutationsUnique(changes[..|changes| - 1]);
    }
  }

  lemma NewsOf(changes: seq<StagedFile>)
    requires WellFormedSet(changes)
    ensures forall p :: p in News(changes) <==> exists c :: c in changes && c.action.Write? && c.path == p
    ensures UniquePaths(changes) ==> forall c | c in changes && c.action.Write? :: News(changes)[c.path] == c.NewFile()
  {
    if changes != [] {
      var n := |changes| - 1;
      NewsOf(changes[..n]);
      assert changes == changes[..n] + [changes[n]];
    }
  }

  /** What a scratch file is for: the new content of a target, the original of a target, or nothing
      the protocol still knows about. */
  datatype Role = Temp(target: Path) | Backup(target: Path) | Litter

  /** Where everything is while a commit is under way. `temps` are the prepared files still in
      their temporary place, `backups` the originals moved aside, `installed` the targets that hold
      their new file, and `role` says what each scratch file on disk is for. */
  datatype Txn = Txn(role: map<Path, Role>, temps: map<Path, Path>, backups: map<Path, Path>, installed: set<Path>)
  {
    ghost function Litters(): set<Path> {
      set p | p in role && role[p].Litter?
    }
  }

  ghost predicate Layout(s0: Files, s: Files, news: map<Path, File>, avoid: set<Path>, t: Txn) {
    Roles(s0, news, avoid, t) && Places(s0, s, news, t)
  }

  /** Each scratch file has one role, and the three records agree with it. */
  ghost predicate Roles(s0: Files, news: map<Path, File>, avoid: set<Path>, t: Txn) {
    && news.Keys <= avoid
    && (forall p | p in t.role :: p !in s0 && p !in avoid)
    && (forall p | p in t.role && t.role[p].Temp? :: t.role[p].target in t.temps && t.temps[t.role[p].target] == p)
    && (forall p | p in t.role && t.role[p].Backup? ::
         t.role[p].target in t.backups && t.backups[t.role[p].target] == p)
    && (forall p | p in t.temps ::
         p in news && p !in t.installed && t.temps[p] in t.role && t.role[t.temps[p]] == Temp(p))
    && (forall p | p in t.backups ::
         p in s0 && p in avoid && t.backups[p] in t.role && t.role[t.backups[p]] == Backup(p))
    && (forall p | p in t.backups :: p != [] && t.backups[p] != [] && Parent(t.backups[p]) == Parent(p))
    && (forall p | p in t.installed :: p in news && (p in s0 ==> p in t.backups))
  }

  /** The disk holds exactly what the records say. */
  ghost predicate Places(s0: Files, s: Files, news: map<Path, File>, t: Txn) {
    && (forall p | p in t.role :: p in s && Holds(s0, s[p], news, t.role[p]))
    && (forall p | p in t.installed :: p in s && p in news && s[p] == news[p])
    && (forall p | p in s && p !in t.role && p !in t.installed :: p in s0 && p !in t.backups)
    && (forall p | p in s0 && p !in t.backups :: p in s && s[p] == s0[p])
  }

  ghost predicate Holds(s0: Files, f: File, news: map<Path, File>, role: Role) {
    match role
    case Temp(p) => p in news && f == news[p]
    case Backup(p) => p in s0 && f == s0[p]
    case Litter => true
  }

  /** Every original is at its own path or in its recorded backup. */
  ghost predicate Recoverable(s0: Files, s: Files, backups: map<Path, Path>) {
    forall p | p in s0 ::
      || (p in s && s[p] == s0[p])
      || (p in backups && backups[p] in s && s[backups[p]] == s0[p])
  }

  lemma LayoutRecoverable(s0: Files, s: Files, news: map<Path, File>, avoid: set<Path>, t: Txn,
          backups: map<Path, Path>)
    requires Layout(s0, s, news, avoid, t)
    requires forall p | p in t.backups :: p in backups && backups[p] == t.backups[p]
    ensures Recoverable(s0, s, backups)
  {
  }

  /** What the protocol's steps share: the disk when it began, the new files, the paths no scratch
      name may take, and the content and fault histories at the start. */
  datatype Start = Start(s0: Files, d0: set<Path>, news: map<Path, File>, avoid: set<Path>, before: seq<Files>,
          faults: seq<Path>, dirFaults: seq<DirFault>)

  /** The protocol is in the layout `t`, and in every content the disk held since the start each
      original could be found by way of `recorded`. */
  ghost predicate Underway(x: Start, d: Disk, t: Txn, recorded: map<Path, Path>)
  {
    && d.Valid()
    && Layout(x.s0, d.files, x.news, x.avoid, t)
    && Kept(x, d.trace, recorded)
    && x.faults <= d.unlinkFaults
  }

  ghost predicate Kept(x: Start, trace: seq<Files>, recorded: map<Path, Path>) {
    && x.before <= trace
    && (forall i | |x.before| <= i < |trace| :: Recoverable(x.s0, trace[i], recorded))
  }

  /** The record the rollback works from still names every backup on disk. */
  ghost predicate Remembers(recorded: map<Path, Path>, t: Txn) {
    forall p | p in t.backups :: p in recorded && recorded[p] == t.backups[p]
  }

  lemma KeptStep(x: Start, trace: seq<Files>, recorded: map<Path, Path>, s: Files, t: Txn, recorded': map<Path, Path>)
    requires Kept(x, trace, recorded)
    requires forall p | p in recorded :: p in recorded' && recorded'[p] == recorded[p]
    requires Layout(x.s0, s, x.news, x.avoid, t) && Remembers(recorded', t)
    ensures Kept(x, trace + [s], recorded')
  {
    LayoutRecoverable(x.s0, s, x.news, x.avoid, t, recorded');
    forall i | |x.before| <= i < |trace| ensures Recoverable(x.s0, trace[i], recorded') {
      assert Recoverable(x.s0, trace[i], recorded);
    }
  }

  /** Scratch files nobody keeps track of are exactly those whose own unlink raised. */
  ghost predicate Accounted(x: Start, d: Disk, t: Txn)
  {
    x.faults <= d.unlinkFaults && t.Litters() == Elements(d.unlinkFaults[|x.faults|..])
  }

  /** The unlink of this path has raised since the start. */
  ghost predicate RefusedSince(x: Start, d: Disk, p: Path) {
    exists i :: |x.faults| <= i < |d.unlinkFaults| && d.unlinkFaults[i] == p
  }

  lemma RefusedStays(x: Start, d: Disk, d': Disk)
    requires d.unlinkFaults <= d'.unlinkFaults
    ensures forall p | RefusedSince(x, d, p) :: RefusedSince(x, d', p)
  {
    forall p | RefusedSince(x, d, p) ensures RefusedSince(x, d', p) {
      var i :| |x.faults| <= i < |d.unlinkFaults| && d.unlinkFaults[i] == p;
      assert d'.unlinkFaults[i] == p;
    }
  }

  lemma RefusedLast(x: Start, d: Disk, faults: seq<Path>, p: Path)
    requires x.faults <= faults && d.unlinkFaults == faults + [p]
    ensures RefusedSince(x, d, p)
  {
    assert d.unlinkFaults[|faults|] == p;
  }

  lemma RefusedElements(x: Start, d: Disk)
    requires x.faults <= d.unlinkFaults
    ensures forall p :: RefusedSince(x, d, p) <==> p in Elements(d.unlinkFaults[|x.faults|..])
  {
    forall p ensures RefusedSince(x, d, p) <==> p in Elements(d.unlinkFaults[|x.faults|..]) {
      if RefusedSince(x, d, p) {
        var i :| |x.faults| <= i < |d.unlinkFaults| && d.unlinkFaults[i] == p;
        assert d.unlinkFaults[|x.faults|..][i - |x.faults|] == p;
      }
    }
  }

  /** Directories made one inside another or inside old ones, in that order. */
  ghost predicate Ladder(d0: set<Path>, made: seq<Path>) {
    && (forall i | 0 <= i < |made| ::
         made[i] !in d0 && made[i] != [] && (Parent(made[i]) in d0 || Parent(made[i]) in made[..i]))
    && (forall i, j | 0 <= i < j < |made| :: made[i] != made[j])
  }

  lemma LadderOnLadder(d0: set<Path>, a: seq<Path>, b: seq<Path>)
    requires Ladder(d0, a) && Ladder(d0 + Elements(a), b)
    ensures Ladder(d0, a + b) && Elements(a + b) == Elements(a) + Elements(b)
  {
    var c := a + b;
    forall i | 0 <= i < |c|
      ensures c[i] !in d0 && c[i] != [] && (Parent(c[i]) in d0 || Parent(c[i]) in c[..i])
    {
      if i < |a| {
        assert c[..i] == a[..i];
      } else {
        assert c[..i] == a + b[..i - |a|];
      }
    }
  }

  ghost function Elements(s: seq<Path>): set<Path> {
    set p | p in s
  }

  /** The directories a chain of mkdirs goes through before it comes to `d`. */
  ghost function Above(d: Path): set<Path> {
    set k | 0 < k < |d| :: d[..k]
  }

  /** mkdir for parent[..m + 1], parent[..m + 2], ..., parent, stopping at the first refusal. */
  method MakeDirs(fs: FileSystem, parent: Path, m: nat) returns (ok: bool, made: seq<Path>)
    requires fs.Valid() && m <= |parent|
    requires parent[..m] in fs.dirs || parent[..m] in fs.files
    requires forall k | m < k <= |parent| :: !fs.Exists(parent[..k])
    modifies fs`dirs, fs`dirFaults, fs`raised
    ensures fs.Valid() && fs.dirs == old(fs.dirs) + Elements(made)
    ensures Ladder(old(fs.dirs), made) && (forall d | d in made :: d != [] && d <= parent)
    ensures ok && m == |parent| ==> made == []
    ensures ok && m < |parent| ==> parent in fs.dirs
    ensures ok ==> fs.raised == old(fs.raised)
    ensures if fs.raised == old(fs.raised) then fs.dirFaults == old(fs.dirFaults) else
              fs.raised == old(fs.raised) + 1 && exists d :: Broke(old(fs.Now()), fs.Now(), parent, d)
    ensures !ok && fs.raised == old(fs.raised) ==> made == [] && m > 0 && parent[..m] in fs.files
  {
    made := [];
    var k := m;
    while k < |parent|
      invariant m <= k <= |parent| && fs.Valid() && fs.raised == old(fs.raised) && fs.dirFaults == old(fs.dirFaults)
      invariant |made| == k - m && (forall i | 0 <= i < k - m :: made[i] == parent[..m + 1 + i])
      invariant fs.dirs == old(fs.dirs) + Elements(made)
      invariant m < k ==> parent[..k] in fs.dirs && parent[..m] in old(fs.dirs)
    {
      assert Parent(parent[..k + 1]) == parent[..k];
      ok := fs.Mkdir(parent[..k + 1]);
      if !ok {
        assert Ladder(old(fs.dirs), made) by { PrefixLadder(old(fs.dirs), parent, m, made); }
        if fs.raised != old(fs.raised) { BrokeAt(old(fs.Now()), fs.Now(), parent, m, k, made); }
        return;
      }
      made := made + [parent[..k + 1]];
      k := k + 1;
    }
    PrefixLadder(old(fs.dirs), parent, m, made);
    assert parent[..k] == parent;
    ok := true;
  }

  /** The mkdir of `d`, on the way down to `parent`, raised: what had been made above it stays. */
  ghost predicate Broke(before: Disk, after: Disk, parent: Path, d: Path) {
    && d != [] && d <= parent && d !in before.dirs
    && after.dirFaults == before.dirFaults + [MkdirFault(d)]
    && after.dirs == before.dirs + Above(d)
  }

  lemma BrokeAt(before: Disk, after: Disk, parent: Path, m: nat, k: nat, made: seq<Path>)
    requires before.Valid() && m <= k < |parent| && |made| == k - m
             && forall i | 0 <= i < k - m :: made[i] == parent[..m + 1 + i]
    requires parent[..k + 1] !in before.dirs && after.dirs == before.dirs + Elements(made)
    requires parent[..m] in before.dirs
    requires after.dirFaults == before.dirFaults + [MkdirFault(parent[..k + 1])]
    ensures Broke(before, after, parent, parent[..k + 1])
  {
    var d := parent[..k + 1];
    AboveIsThere(before, parent[..m]);
    forall q | q in Above(d) ensures q in after.dirs {
      var j :| 0 < j < |d| && q == d[..j];
      assert q == parent[..j];
      if j <= m { assert q == parent[..m][..j]; } else { assert made[j - m - 1] == q; }
    }
    forall q | q in made ensures q in Above(d) {
      var i :| 0 <= i < |made| && made[i] == q;
      assert q == d[..m + 1 + i];
    }
  }

  /** Whatever exists, everything above it is a directory. */
  lemma {:induction false} AboveIsThere(d: Disk, p: Path)
    requires d.Valid() && (p in d.dirs || p in d.files)
    ensures forall k | 0 <= k < |p| :: p[..k] in d.dirs
    decreases |p|
  {
    if p != [] {
      AboveIsThere(d, Parent(p));
      forall k | 0 <= k < |p| ensures p[..k] in d.dirs {
        if k < |p| - 1 { assert p[..k] == Parent(p)[..k]; }
      }
    }
  }

  lemma PrefixLadder(d0: set<Path>, parent: Path, m: nat, made: seq<Path>)
    requires m + |made| <= |parent|
    requires forall i | 0 <= i < |made| :: made[i] == parent[..m + 1 + i] && made[i] !in d0
    requires made != [] ==> parent[..m] in d0
    ensures Ladder(d0, made)
  {
    forall i | 0 <= i < |made| ensures Parent(made[i]) in d0 || Parent(made[i]) in made[..i] {
      assert Parent(made[i]) == parent[..m + i];
      if i > 0 { assert made[..i][i - 1] == parent[..m + i]; }
    }
    forall i, j | 0 <= i < j < |made| ensures made[i] != made[j] {
      assert |made[i]| == m + 1 + i && |made[j]| == m + 1 + j;
    }
  }

  /** Makes the missing directories of `parent`. When a mkdir raises half way, the caller is not told
      about those made before it: they are stranded. Without a raise nothing is, and only a file in the
      way of the path can be the reason to fail. */
  method EnsureParent(fs: FileSystem, parent: Path) returns (ok: bool, made: seq<Path>)
    requires fs.Valid()
    modifies fs`dirs, fs`dirFaults, fs`raised
    ensures fs.Valid() && Ladder(old(fs.dirs), made)
    ensures ok ==>
              && fs.dirs == old(fs.dirs) + Elements(made) && parent in fs.dirs
              && forall d | d in made :: d != [] && d <= parent
    ensures !ok ==> made == []
    ensures ok ==> fs.raised == old(fs.raised)
    ensures if fs.raised == old(fs.raised) then fs.dirFaults == old(fs.dirFaults) else
              fs.raised == old(fs.raised) + 1 && exists d :: Broke(old(fs.Now()), fs.Now(), parent, d)
    ensures !ok && fs.raised == old(fs.raised) ==>
              fs.dirs == old(fs.dirs) && exists k :: 0 < k <= |parent| && parent[..k] in fs.files
  {
    var m := |parent|;
    assert parent[..0] == [] && parent[..|parent|] == parent;
    while !fs.Exists(parent[..m])
      invariant 0 <= m <= |parent|
      invariant forall k | m < k <= |parent| :: !fs.Exists(parent[..k])
      decreases m
    {
      assert 0 < m;
      m := m - 1;
    }
    ok, made := MakeDirs(fs, parent, m);
    if ok {
      ok := parent in fs.dirs;
    }
    if !ok {
      made := [];
    }
  }

  // Each step of the protocol, as it changes the records and the disk.

  lemma RolesScratch(s0: Files, news: map<Path, File>, avoid: set<Path>, t: Txn, p: Path)
    requires Roles(s0, news, avoid, t)
    requires p !in avoid && p !in s0 && (p in t.role ==> t.role[p].Litter?)
    ensures Roles(s0, news, avoid, t.(role := t.role[p := Litter]))
    ensures t.(role := t.role[p := Litter]).Litters() == t.Litters() + {p}
  {
  }

  lemma LayoutScratch(s0: Files, s: Files, news: map<Path, File>, avoid: set<Path>, t: Txn, p: Path, f: File)
    requires Layout(s0, s, news, avoid, t)
    requires p !in avoid && p !in s0 && (p in t.role ==> t.role[p].Litter?)
    requires p in s ==> p in t.role
    ensures Layout(s0, s[p := f], news, avoid, t.(role := t.role[p := Litter]))
    ensures t.(role := t.role[p := Litter]).Litters() == t.Litters() + {p}
  {
    RolesScratch(s0, news, avoid, t, p);
    assert p !in t.installed;
    hide Roles, Txn.Litters;
  }

  lemma RolesAdopt(s0: Files, news: map<Path, File>, avoid: set<Path>, t: Txn, target: Path, p: Path)
    requires Roles(s0, news, avoid, t)
    requires p in t.role && t.role[p].Litter?
    requires target in news && target !in t.temps && target !in t.installed
    ensures Roles(s0, news, avoid, t.(role := t.role[p := Temp(target)], temps := t.temps[target := p]))
    ensures t.(role := t.role[p := Temp(target)], temps := t.temps[target := p]).Litters() == t.Litters() - {p}
  {
  }

  lemma LayoutAdopt(s0: Files, s: Files, news: map<Path, File>, avoid: set<Path>, t: Txn, target: Path, p: Path)
    requires Layout(s0, s, news, avoid, t)
    requires p in t.role && t.role[p].Litter?
    requires target in news && target !in t.temps && target !in t.installed
    ensures Layout(s0, s[p := news[target]], news, avoid,
              t.(role := t.role[p := Temp(target)], temps := t.temps[target := p]))
    ensures t.(role := t.role[p := Temp(target)], temps := t.temps[target := p]).Litters() == t.Litters() - {p}
  {
    RolesAdopt(s0, news, avoid, t, target, p);
    assert p !in t.installed && p !in s0;
    hide Roles, Txn.Litters;
  }

  lemma RolesDropLitter(s0: Files, news: map<Path, File>, avoid: set<Path>, t: Txn, p: Path)
    requires Roles(s0, news, avoid, t)
    requires p in t.role && t.role[p].Litter?
    ensures Roles(s0, news, avoid, t.(role := t.role - {p}))
    ensures t.(role := t.role - {p}).Litters() == t.Litters() - {p}
  {
  }

  lemma LayoutDropLitter(s0: Files, s: Files, news: map<Path, File>, avoid: set<Path>, t: Txn, p: Path)
    requires Layout(s0, s, news, avoid, t)
    requires p in t.role && t.role[p].Litter?
    ensures Layout(s0, s - {p}, news, avoid, t.(role := t.role - {p}))
    ensures t.(role := t.role - {p}).Litters() == t.Litters() - {p}
  {
    RolesDropLitter(s0, news, avoid, t, p);
    assert p !in t.installed && p !in s0;
    hide Roles, Txn.Litters;
  }

  lemma RolesDropTemp(s0: Files, news: map<Path, File>, avoid: set<Path>, t: Txn, p: Path)
    requires Roles(s0, news, avoid, t)
    requires p in t.temps
    ensures Roles(s0, news, avoid, t.(role := t.role - {t.temps[p]}, temps := t.temps - {p}))
    ensures t.(role := t.role - {t.temps[p]}, temps := t.temps - {p}).Litters() == t.Litters()
  {
  }

  lemma LayoutDropTemp(s0: Files, s: Files, news: map<Path, File>, avoid: set<Path>, t: Txn, p: Path)
    requires Layout(s0, s, news, avoid, t)
    requires p in t.temps
    ensures Layout(s0, s - {t.temps[p]}, news, avoid, t.(role := t.role - {t.temps[p]}, temps := t.temps - {p}))
    ensures t.(role := t.role - {t.temps[p]}, temps := t.temps - {p}).Litters() == t.Litters()
  {
    RolesDropTemp(s0, news, avoid, t, p);
    assert t.temps[p] !in t.installed && t.temps[p] !in s0;
    hide Roles, Txn.Litters;
  }

  lemma RolesMoveAside(s0: Files, news: map<Path, File>, avoid: set<Path>, t: Txn, p: Path, b: Path)
    requires Roles(s0, news, avoid, t)
    requires p in s0 && p in avoid && p !in t.backups && p !in t.installed
    requires b !in avoid && b !in s0 && b !in t.role && b != [] && p != [] && Parent(b) == Parent(p)
    ensures Roles(s0, news, avoid, t.(role := t.role[b := Backup(p)], backups := t.backups[p := b]))
    ensures t.(role := t.role[b := Backup(p)], backups := t.backups[p := b]).Litters() == t.Litters()
  {
  }

  lemma LayoutMoveAside(s0: Files, s: Files, news: map<Path, File>, avoid: set<Path>, t: Txn, p: Path, b: Path)
    requires Layout(s0, s, news, avoid, t)
    requires p in s0 && p in avoid && p !in t.backups && p !in t.installed
    requires b !in avoid && b !in s0 && b !in t.role && b != [] && p != [] && Parent(b) == Parent(p)
    requires b !in s && p in s
    ensures Layout(s0, (s - {p})[b := s[p]], news, avoid,
              t.(role := t.role[b := Backup(p)], backups := t.backups[p := b]))
    ensures t.(role := t.role[b := Backup(p)], backups := t.backups[p := b]).Litters() == t.Litters()
  {
    RolesMoveAside(s0, news, avoid, t, p, b);
    assert p !in t.role && b !in t.installed;
    hide Roles, Txn.Litters;
  }

  lemma RolesInstall(s0: Files, news: map<Path, File>, avoid: set<Path>, t: Txn, p: Path)
    requires Roles(s0, news, avoid, t)
    requires p in t.temps && (p in s0 ==> p in t.backups)
    ensures Roles(s0, news, avoid,
              t.(role := t.role - {t.temps[p]}, temps := t.temps - {p}, installed := t.installed + {p}))
    ensures t.(role := t.role - {t.temps[p]}, temps := t.temps - {p}, installed := t.installed + {p}).Litters() ==
              t.Litters()
  {
  }

  lemma PlacesInstall(s0: Files, s: Files, news: map<Path, File>, t: Txn, p: Path)
    requires Places(s0, s, news, t) && p in t.temps && p in news && (p in s0 ==> p in t.backups) && p !in t.role
    requires t.temps[p] in t.role && t.role[t.temps[p]] == Temp(p) && t.temps[p] !in t.installed && t.temps[p] !in s0
             && t.temps[p] in s
    ensures Places(s0, (s - {t.temps[p]})[p := s[t.temps[p]]], news,
              t.(role := t.role - {t.temps[p]}, temps := t.temps - {p}, installed := t.installed + {p}))
  {
  }

  lemma LayoutInstall(s0: Files, s: Files, news: map<Path, File>, avoid: set<Path>, t: Txn, p: Path)
    requires Layout(s0, s, news, avoid, t)
    requires p in t.temps && (p in s0 ==> p in t.backups)
    requires t.temps[p] in s
    ensures Layout(s0, (s - {t.temps[p]})[p := s[t.temps[p]]], news, avoid,
              t.(role := t.role - {t.temps[p]}, temps := t.temps - {p}, installed := t.installed + {p}))
    ensures t.(role := t.role - {t.temps[p]}, temps := t.temps - {p}, installed := t.installed + {p}).Litters() ==
              t.Litters()
  {
    hide Places, Txn.Litters;
    RolesInstall(s0, news, avoid, t, p);
    PlacesInstall(s0, s, news, t, p);
  }

  lemma RolesUninstall(s0: Files, news: map<Path, File>, avoid: set<Path>, t: Txn, p: Path)
    requires Roles(s0, news, avoid, t)
    requires p in t.installed
    ensures Roles(s0, news, avoid, t.(installed := t.installed - {p}))
    ensures t.(installed := t.installed - {p}).Litters() == t.Litters()
  {
  }

  lemma LayoutUninstall(s0: Files, s: Files, news: map<Path, File>, avoid: set<Path>, t: Txn, p: Path)
    requires Layout(s0, s, news, avoid, t)
    requires p in t.installed
    ensures Layout(s0, s - {p}, news, avoid, t.(installed := t.installed - {p}))
    ensures t.(installed := t.installed - {p}).Litters() == t.Litters()
  {
    RolesUninstall(s0, news, avoid, t, p);
    assert p !in t.role && (p in s0 ==> p in t.backups);
    hide Roles, Txn.Litters;
  }

  lemma RolesRestore(s0: Files, news: map<Path, File>, avoid: set<Path>, t: Txn, p: Path)
    requires Roles(s0, news, avoid, t)
    requires p in t.backups && p !in t.installed
    ensures Roles(s0, news, avoid, t.(role := t.role - {t.backups[p]}, backups := t.backups - {p}))
    ensures t.(role := t.role - {t.backups[p]}, backups := t.backups - {p}).Litters() == t.Litters()
  {
  }

  lemma PlacesRestore(s0: Files, s: Files, news: map<Path, File>, t: Txn, p: Path)
    requires Places(s0, s, news, t) && p in t.backups && p !in t.installed && p in s0 && p !in t.role
    requires t.backups[p] in t.role && t.role[t.backups[p]] == Backup(p) && t.backups[p] !in t.installed
             && t.backups[p] !in s0
    requires t.backups[p] in s
    ensures Places(s0, (s - {t.backups[p]})[p := s[t.backups[p]]], news,
              t.(role := t.role - {t.backups[p]}, backups := t.backups - {p}))
  {
  }

  lemma LayoutRestore(s0: Files, s: Files, news: map<Path, File>, avoid: set<Path>, t: Txn, p: Path)
    requires Layout(s0, s, news, avoid, t)
    requires p in t.backups && p !in t.installed
    requires t.backups[p] in s
    ensures Layout(s0, (s - {t.backups[p]})[p := s[t.backups[p]]], news, avoid,
              t.(role := t.role - {t.backups[p]}, backups := t.backups - {p}))
    ensures t.(role := t.role - {t.backups[p]}, backups := t.backups - {p}).Litters() == t.Litters()
  {
    hide Places, Txn.Litters;
    RolesRestore(s0, news, avoid, t, p);
    PlacesRestore(s0, s, news, t, p);
  }

  // Each step of the protocol: one disk operation, and the layout it leads to.

  ghost predicate SameFaults(fs: FileSystem, unlinks: seq<Path>, chains: seq<DirFault>, dirs: set<Path>)
    reads fs
  {
    fs.unlinkFaults == unlinks && fs.dirFaults == chains && fs.dirs == dirs
  }

  /** Every scratch file is where the records say, and no target. */
  lemma ScratchOnDisk(x: Start, d: Disk, t: Txn)
    requires Layout(x.s0, d.files, x.news, x.avoid, t)
    ensures forall p | p in t.role :: p in d.files && p !in x.avoid && p !in x.s0
    ensures forall p | p in t.temps :: p in x.avoid && t.temps[p] in t.role
    ensures forall p | p in t.backups :: p in x.avoid && t.backups[p] in t.role
    ensures forall p | p in x.s0 && p !in d.files :: p in x.avoid
    ensures forall p | p in t.installed :: p in d.files
    ensures t.Litters() <= t.role.Keys
  {
  }

  /** mkstemp: the new name is litter until its creator finds a use for it. */
  method Reserve(fs: FileSystem, parent: Path, avoid: set<Path>, ghost x: Start, ghost t: Txn)
    returns (r: Option<Path>, ghost t': Txn)
    requires Underway(x, fs.Now(), t, t.backups) && avoid == x.avoid
    modifies fs
    ensures Underway(x, fs.Now(), t', t'.backups)
            && SameFaults(fs, old(fs.unlinkFaults), old(fs.dirFaults), old(fs.dirs))
    ensures r.None? ==> t' == t
    ensures r.Some? ==>
              && r.value !in t.role && r.value !in x.avoid && r.value !in x.s0 && r.value != []
              && Parent(r.value) == parent
    ensures r.Some? ==> t'.Litters() == t.Litters() + {r.value} && r.value !in t.Litters()
    ensures r.Some? ==> t' == t.(role := t.role[r.value := Litter])
    ensures Since(old(fs.Now()), fs.Now())
    ensures r.Some? ==> fs.raised == old(fs.raised)
    ensures r.Some? ==> r.value !in fs.dirs && r.value !in old(fs.files)
    ensures r.None? && parent in fs.dirs ==> old(fs.raised) < fs.raised
  {
    hide Layout, Roles, Places, Recoverable, Txn.Litters, Kept, Disk.Valid;
    ScratchOnDisk(x, fs.Now(), t);
    r := fs.Mkstemp(parent, avoid);
    t' := t;
    if r.Some? {
      t' := t.(role := t.role[r.value := Litter]);
      LayoutScratch(x.s0, old(fs.files), x.news, x.avoid, t, r.value, fs.files[r.value]);
      KeptStep(x, old(fs.trace), t.backups, fs.files, t', t'.backups);
    }
  }

  method FillTemp(fs: FileSystem, p: Path, target: Path, file: File, ghost x: Start, ghost t: Txn)
    returns (ok: bool, ghost t': Txn)
    requires Underway(x, fs.Now(), t, t.backups)
    requires p in t.role && t.role[p].Litter?
    requires target in x.news && x.news[target] == file && target !in t.temps && target !in t.installed
    modifies fs
    ensures Underway(x, fs.Now(), t', t'.backups)
            && SameFaults(fs, old(fs.unlinkFaults), old(fs.dirFaults), old(fs.dirs))
    ensures t'.Litters() == if ok then t.Litters() - {p} else t.Litters()
    ensures t' == if ok then t.(role := t.role[p := Temp(target)], temps := t.temps[target := p]) else t
    ensures Since(old(fs.Now()), fs.Now())
    ensures ok ==> fs.raised == old(fs.raised)
    ensures !ok ==> old(fs.raised) < fs.raised
  {
    hide Layout, Roles, Places, Recoverable, Txn.Litters, Kept, Disk.Valid;
    ScratchOnDisk(x, fs.Now(), t);
    assert t.role[p := Litter] == t.role;
    var torn: File := *;
    ok := fs.Fill(p, file, torn);
    t' := if ok then t.(role := t.role[p := Temp(target)], temps := t.temps[target := p]) else t;
    if ok {
      LayoutAdopt(x.s0, old(fs.files), x.news, x.avoid, t, target, p);
    } else {
      LayoutScratch(x.s0, old(fs.files), x.news, x.avoid, t, p, torn);
    }
    KeptStep(x, old(fs.trace), t.backups, fs.files, t', t'.backups);
  }

  method DropLitter(fs: FileSystem, p: Path, ghost x: Start, ghost t: Txn) returns (ok: bool, ghost t': Txn)
    requires Underway(x, fs.Now(), t, t.backups)
    requires p in t.role && t.role[p].Litter?
    modifies fs
    ensures Underway(x, fs.Now(), t', t'.backups) && fs.dirFaults == old(fs.dirFaults) && fs.dirs == old(fs.dirs)
    ensures ok ==> fs.unlinkFaults == old(fs.unlinkFaults)
    ensures !ok ==> fs.unlinkFaults == old(fs.unlinkFaults) + [p]
    ensures t'.Litters() == if ok then t.Litters() - {p} else t.Litters()
    ensures t' == if ok then t.(role := t.role - {p}) else t
    ensures ok ==> p !in fs.files
    ensures Since(old(fs.Now()), fs.Now())
    ensures ok ==> fs.raised == old(fs.raised)
    ensures !ok ==> old(fs.raised) < fs.raised
  {
    hide Layout, Roles, Places, Recoverable, Txn.Litters, Kept, Disk.Valid;
    ScratchOnDisk(x, fs.Now(), t);
    ok := fs.Unlink(p);
    t' := if ok then t.(role := t.role - {p}) else t;
    if ok { LayoutDropLitter(x.s0, old(fs.files), x.news, x.avoid, t, p); }
    KeptStep(x, old(fs.trace), t.backups, fs.files, t', t'.backups);
  }

  method MoveAside(fs: FileSystem, p: Path, b: Path, ghost x: Start, ghost t: Txn) returns (ok: bool, ghost t': Txn)
    requires Underway(x, fs.Now(), t, t.backups)
    requires p in x.s0 && p in x.avoid && p !in t.backups && p !in t.installed
    requires b !in x.avoid && b !in fs.files && b !in x.s0 && b != [] && p != [] && Parent(b) == Parent(p)
    modifies fs
    ensures Underway(x, fs.Now(), t', t'.backups)
            && SameFaults(fs, old(fs.unlinkFaults), old(fs.dirFaults), old(fs.dirs))
    ensures t'.Litters() == t.Litters()
    ensures t' == if ok then t.(role := t.role[b := Backup(p)], backups := t.backups[p := b]) else t
    ensures Since(old(fs.Now()), fs.Now())
    ensures ok ==> fs.raised == old(fs.raised)
    ensures !ok && b !in fs.dirs && Parent(b) in fs.dirs ==> old(fs.raised) < fs.raised
  {
    hide Layout, Roles, Places, Recoverable, Txn.Litters, Kept, Disk.Valid;
    Untouched(x, fs.Now(), t, p);
    ScratchOnDisk(x, fs.Now(), t);
    ok := fs.Replace(p, b);
    t' := if ok then t.(role := t.role[b := Backup(p)], backups := t.backups[p := b]) else t;
    if ok { LayoutMoveAside(x.s0, old(fs.files), x.news, x.avoid, t, p, b); }
    KeptStep(x, old(fs.trace), t.backups, fs.files, t', t'.backups);
  }

  method Install(fs: FileSystem, p: Path, temp: Path, ghost x: Start, ghost t: Txn) returns (ok: bool, ghost t': Txn)
    requires Underway(x, fs.Now(), t, t.backups)
    requires p in t.temps && t.temps[p] == temp && (p in x.s0 ==> p in t.backups) && p != []
    modifies fs
    ensures Underway(x, fs.Now(), t', t'.backups)
            && SameFaults(fs, old(fs.unlinkFaults), old(fs.dirFaults), old(fs.dirs))
    ensures t'.Litters() == t.Litters()
    ensures fs.files.Keys <= old(fs.files).Keys + {p} && temp !in x.avoid && (ok ==> temp !in fs.files)
    ensures t' == if ok then t.(role := t.role - {temp}, temps := t.temps - {p}, installed := t.installed + {p}) else t
    ensures Since(old(fs.Now()), fs.Now())
    ensures ok ==> fs.raised == old(fs.raised)
    ensures !ok && p !in fs.dirs && Parent(p) in fs.dirs ==> old(fs.raised) < fs.raised
  {
    hide Layout, Roles, Places, Recoverable, Txn.Litters, Kept, Disk.Valid;
    ScratchOnDisk(x, fs.Now(), t);
    ok := fs.Replace(temp, p);
    t' := if ok then t.(role := t.role - {temp}, temps := t.temps - {p}, installed := t.installed + {p}) else t;
    if ok { LayoutInstall(x.s0, old(fs.files), x.news, x.avoid, t, p); }
    KeptStep(x, old(fs.trace), t.backups, fs.files, t', t'.backups);
  }

  method Uninstall(fs: FileSystem, p: Path, ghost x: Start, ghost t: Txn, ghost recorded: map<Path, Path>)
    returns (ok: bool, ghost t': Txn)
    requires Underway(x, fs.Now(), t, recorded) && Remembers(recorded, t)
    requires p in t.installed
    modifies fs
    ensures Underway(x, fs.Now(), t', recorded) && fs.dirFaults == old(fs.dirFaults) && fs.dirs == old(fs.dirs)
    ensures ok ==> fs.unlinkFaults == old(fs.unlinkFaults)
    ensures t'.Litters() == t.Litters()
    ensures fs.files.Keys <= old(fs.files).Keys
    ensures !ok ==> fs.unlinkFaults == old(fs.unlinkFaults) + [p]
    ensures t' == if ok then t.(installed := t.installed - {p}) else t
    ensures Since(old(fs.Now()), fs.Now())
    ensures ok ==> fs.raised == old(fs.raised)
    ensures !ok ==> old(fs.raised) < fs.raised
  {
    hide Layout, Roles, Places, Recoverable, Txn.Litters, Kept, Disk.Valid;
    ScratchOnDisk(x, fs.Now(), t);
    ok := fs.Unlink(p);
    t' := if ok then t.(installed := t.installed - {p}) else t;
    if ok { LayoutUninstall(x.s0, old(fs.files), x.news, x.avoid, t, p); }
    KeptStep(x, old(fs.trace), recorded, fs.files, t', recorded);
  }

  method Restore(fs: FileSystem, p: Path, b: Path, ghost x: Start, ghost t: Txn, ghost recorded: map<Path, Path>)
    returns (ok: bool, ghost t': Txn)
    requires Underway(x, fs.Now(), t, recorded) && Remembers(recorded, t)
    requires p in t.backups && p !in t.installed && t.backups[p] == b && p != []
    modifies fs
    ensures Underway(x, fs.Now(), t', recorded) && SameFaults(fs, old(fs.unlinkFaults), old(fs.dirFaults), old(fs.dirs))
    ensures t'.Litters() == t.Litters()
    ensures fs.files.Keys <= old(fs.files).Keys + {p}
    ensures t' == if ok then t.(role := t.role - {b}, backups := t.backups - {p}) else t
    ensures Since(old(fs.Now()), fs.Now())
    ensures ok ==> fs.raised == old(fs.raised)
    ensures !ok && p !in fs.dirs && Parent(p) in fs.dirs ==> old(fs.raised) < fs.raised
  {
    hide Layout, Roles, Places, Recoverable, Txn.Litters, Kept, Disk.Valid;
    ScratchOnDisk(x, fs.Now(), t);
    ok := fs.Replace(b, p);
    t' := if ok then t.(role := t.role - {b}, backups := t.backups - {p}) else t;
    if ok { LayoutRestore(x.s0, old(fs.files), x.news, x.avoid, t, p); }
    KeptStep(x, old(fs.trace), recorded, fs.files, t', recorded);
  }

  /** unlink(missing_ok=True) on a temporary name, whether or not it has been renamed meanwhile. */
  method DropTemp(fs: FileSystem, p: Path, temp: Path, ghost x: Start, ghost t: Txn, ghost recorded: map<Path, Path>)
    returns (ok: bool, ghost t': Txn)
    requires Underway(x, fs.Now(), t, recorded) && Remembers(recorded, t)
    requires if p in t.temps then t.temps[p] == temp else temp !in fs.files && temp !in x.avoid
    modifies fs
    ensures Underway(x, fs.Now(), t', recorded) && fs.dirFaults == old(fs.dirFaults) && fs.dirs == old(fs.dirs)
    ensures ok ==> fs.unlinkFaults == old(fs.unlinkFaults) && p !in t'.temps
    ensures p !in t.temps ==> ok && fs.files == old(fs.files) && t' == t
    ensures t'.Litters() == t.Litters()
    ensures fs.files.Keys <= old(fs.files).Keys && temp !in x.avoid && (ok ==> temp !in fs.files)
    ensures !ok ==> fs.unlinkFaults == old(fs.unlinkFaults) + [temp]
    ensures t' == if ok && p in t.temps then t.(role := t.role - {temp}, temps := t.temps - {p}) else t
    ensures Since(old(fs.Now()), fs.Now())
    ensures ok ==> fs.raised == old(fs.raised)
    ensures !ok ==> old(fs.raised) < fs.raised
  {
    hide Layout, Roles, Places, Recoverable, Txn.Litters, Kept, Disk.Valid;
    ScratchOnDisk(x, fs.Now(), t);
    ok := fs.Unlink(temp);
    t' := t;
    if ok && p in t.temps {
      t' := t.(role := t.role - {temp}, temps := t.temps - {p});
      LayoutDropTemp(x.s0, old(fs.files), x.news, x.avoid, t, p);
    } else {
      assert fs.files == old(fs.files);
    }
    KeptStep(x, old(fs.trace), recorded, fs.files, t', recorded);
  }

  // The four phases of the try block. Each returns false as soon as one of its steps raises.

  method PrepareFile(fs: FileSystem, c: StagedFile, avoid: set<Path>, ghost x: Start, ghost t: Txn)
    returns (r: Option<Path>, ghost t': Txn)
    requires Underway(x, fs.Now(), t, t.backups) && Accounted(x, fs.Now(), t) && avoid == x.avoid
    requires c.WellFormed() && c.action.Write? && c.path in x.news && x.news[c.path] == c.NewFile()
    requires c.path !in t.temps && c.path !in t.installed
    modifies fs
    ensures Underway(x, fs.Now(), t', t.backups) && Accounted(x, fs.Now(), t')
    ensures fs.dirs == old(fs.dirs) && fs.dirFaults == old(fs.dirFaults)
    ensures t'.backups == t.backups && t'.installed == t.installed
    ensures t'.temps == if r.Some? then t.temps[c.path := r.value] else t.temps
    ensures Since(old(fs.Now()), fs.Now())
    ensures r.Some? ==> fs.raised == old(fs.raised)
    ensures r.None? && Parent(c.path) in fs.dirs ==> old(fs.raised) < fs.raised
  {
    hide Layout, Recoverable, Txn.Litters;
    r, t' := Reserve(fs, Parent(c.path), avoid, x, t);
    if r.None? { return; }
    var ok;
    ok, t' := FillTemp(fs, r.value, c.path, c.NewFile(), x, t');
    if !ok {
      ok, t' := DropLitter(fs, r.value, x, t');
      assert ok || fs.unlinkFaults[|x.faults|..] == old(fs.unlinkFaults[|x.faults|..]) + [r.value];
      r := None;
    }
  }

  /** Every change is a mutation whose new file, if any, `x.news` knows. */
  ghost predicate Planned(x: Start, muts: seq<StagedFile>) {
    && WellFormedSet(muts) && UniquePaths(muts)
    && (forall c | c in muts :: c.path in x.avoid)
    && (forall c | c in muts && c.action.Write? :: c.path in x.news && x.news[c.path] == c.NewFile())
    && (forall c | c in muts && !c.action.Write? :: c.path !in x.news)
  }

  lemma PlannedAt(x: Start, muts: seq<StagedFile>, i: nat)
    requires Planned(x, muts) && i < |muts|
    ensures muts[i].WellFormed() && muts[i].path in x.avoid && muts[i].path !in Targets(muts[..i])
    ensures muts[i].action.Write? <==> muts[i].path in x.news
    ensures muts[i].action.Write? ==> x.news[muts[i].path] == muts[i].NewFile()
  {
    assert muts[i] in muts;
  }

  lemma PrefixesStep(muts: seq<StagedFile>, i: nat)
    requires i < |muts| && muts[i].path != []
    ensures Prefixes(muts[..i]) <= Prefixes(muts[..i + 1]) <= Prefixes(muts)
    ensures forall d :: d in Prefixes(muts[..i + 1]) <==> d in Prefixes(muts[..i]) || d <= Parent(muts[i].path)
  {
    var c := muts[i];
    assert muts[..i + 1] == muts[..i] + [c] && c in muts;
    forall d ensures d in Prefixes(muts[..i + 1]) <==> d in Prefixes(muts[..i]) || d <= Parent(c.path) {
      if d <= Parent(c.path) {
        assert c in muts[..i + 1] && d == c.path[..|d|];
      }
      if d in Prefixes(muts[..i + 1]) {
        var e, k :| e in muts[..i + 1] && 0 <= k < |e.path| && d == e.path[..k];
        if e == c { assert d == Parent(c.path)[..k]; }
      }
    }
  }

  lemma {:induction false} PrefixesGrow(muts: seq<StagedFile>, i: nat, j: nat)
    requires i <= j <= |muts|
    ensures Prefixes(muts[..i]) <= Prefixes(muts[..j])
  {
    assert forall c | c in muts[..i] :: c in muts[..j];
  }

  /** The first mutation that needs the directory. */
  ghost function FirstNeed(muts: seq<StagedFile>, d: Path): (n: nat)
    ensures n <= |muts| && d !in Prefixes(muts[..n]) && (n < |muts| ==> d in Prefixes(muts[..n + 1]))
  {
    if muts == [] then 0
    else
      var last := |muts| - 1;
      var n := FirstNeed(muts[..last], d);
      assert muts[..last][..n] == muts[..n] && (n < last ==> muts[..last][..n + 1] == muts[..n + 1])
             && muts[..last + 1] == muts;
      if n < last || d in Prefixes(muts) then n else |muts|
  }

  lemma FirstNeedIs(muts: seq<StagedFile>, d: Path, i: nat)
    requires i < |muts| && d !in Prefixes(muts[..i]) && d in Prefixes(muts[..i + 1])
    ensures FirstNeed(muts, d) == i
  {
    var n := FirstNeed(muts, d);
    PrefixesGrow(muts, if n < i then n + 1 else 0, i);
    PrefixesGrow(muts, if i < n then i + 1 else 0, n);
  }

  /** What a raise of the mkdir of `d` leaves behind: the directories above it that were neither there
      before nor made for an earlier mutation. */
  ghost function Stranded(d0: set<Path>, muts: seq<StagedFile>, d: Path): set<Path> {
    Above(d) - d0 - Prefixes(muts[..FirstNeed(muts, d)])
  }

  /** Something is left behind exactly if the directory right above had just been made. */
  lemma StrandedIff(d: Disk, muts: seq<StagedFile>, p: Path)
    requires d.Valid() && p != []
    ensures Stranded(d.dirs, muts, p) != {} <==>
              Parent(p) !in d.dirs && Parent(p) !in Prefixes(muts[..FirstNeed(muts, p)])
  {
    var made := Prefixes(muts[..FirstNeed(muts, p)]);
    if Parent(p) in d.dirs {
      AboveIsThere(d, Parent(p));
      forall k | 0 < k < |p| ensures p[..k] in d.dirs {
        if k < |p| - 1 { assert p[..k] == Parent(p)[..k]; }
      }
    } else if Parent(p) in made {
      forall k | 0 < k < |p| ensures p[..k] in made {
        var c, n :| c in muts[..FirstNeed(muts, p)] && 0 <= n < |c.path| && c.path[..n] == Parent(p);
        assert p[..k] == Parent(p)[..k] == c.path[..k];
      }
    } else {
      assert Parent(p) in Above(p);
      assert Parent(p) in Stranded(d.dirs, muts, p);
    }
  }

  /** What the mkdir faults of a commit left behind: only the first fault can be one, since the preparation
      stops there. */
  ghost function StrandedBy(d0: set<Path>, muts: seq<StagedFile>, faults: seq<DirFault>): set<Path> {
    if faults != [] && faults[0].MkdirFault? then Stranded(d0, muts, faults[0].dir) else {}
  }

  /** A chain of two, the second mkdir raising: the first directory stays. */
  lemma HalfMadeChain(c: StagedFile)
    requires c.path == [1, 2, 3]
    ensures Stranded({[]}, [c], [1, 2]) == {[1]}
  {
    var d := [1, 2];
    assert c.path[..1] == [1] == d[..1] && c.path[..2] == d;
    assert [c][..0] == [] && [c][..1] == [c];
    FirstNeedIs([c], d, 0);
    assert [1] in Above(d);
    forall q | q in Above(d) ensures q == [1] {
    }
  }

  /** One raise of a mkdir at most, and what it left behind is `stranded`. */
  ghost predicate Blamed(x: Start, muts: seq<StagedFile>, faults: seq<DirFault>, stranded: set<Path>) {
    || (faults == x.dirFaults && stranded == {})
    || exists d :: faults == x.dirFaults + [MkdirFault(d)] && d in Prefixes(muts) && stranded == Stranded(x.d0, muts, d)
  }

  lemma ChainDone(x: Start, d: Disk, d': Disk, muts: seq<StagedFile>, i: nat, made: seq<Path>)
    requires i < |muts| && muts[i].path != [] && d'.Valid() && d.dirs == x.d0 + Prefixes(muts[..i])
    requires d'.dirs == d.dirs + Elements(made) && Parent(muts[i].path) in d'.dirs
             && forall q | q in made :: q <= Parent(muts[i].path)
    ensures d'.dirs == x.d0 + Prefixes(muts[..i + 1]) && Elements(made) <= Prefixes(muts)
  {
    PrefixesStep(muts, i);
    var parent := Parent(muts[i].path);
    AboveIsThere(d', parent);
    forall q | q <= parent ensures q in d'.dirs {
      assert q == parent[..|q|];
    }
  }

  lemma ChainBroke(x: Start, d: Disk, d': Disk, muts: seq<StagedFile>, i: nat) returns (stranded: set<Path>)
    requires i < |muts| && muts[i].path != [] && d.dirs == x.d0 + Prefixes(muts[..i]) && d.dirFaults == x.dirFaults
    requires exists q :: Broke(d, d', Parent(muts[i].path), q)
    ensures Blamed(x, muts, d'.dirFaults, stranded)
    ensures d'.dirs == d.dirs + stranded && stranded !! d.dirs
    ensures d'.dirFaults == d.dirFaults + [d'.dirFaults[|d.dirFaults|]]
  {
    var q :| Broke(d, d', Parent(muts[i].path), q);
    PrefixesStep(muts, i);
    FirstNeedIs(muts, q, i);
    stranded := Stranded(x.d0, muts, q);
  }

  /** A file found in the way of a directory was there at the start. */
  lemma InTheWay(x: Start, d: Disk, t: Txn, muts: seq<StagedFile>, i: nat)
    requires Underway(x, d, t, t.backups) && t.backups == map[] && t.installed == {}
    requires i < |muts| && muts[i].path != [] && Prefixes(muts) <= x.avoid
    requires exists k :: 0 < k <= |Parent(muts[i].path)| && Parent(muts[i].path)[..k] in d.files
    ensures exists p :: p in Prefixes(muts) && p in x.s0
  {
    var c := muts[i];
    var k :| 0 < k <= |Parent(c.path)| && Parent(c.path)[..k] in d.files;
    var p := c.path[..k];
    assert c in muts && p == Parent(c.path)[..k];
    assert p in Prefixes(muts);
    Untouched(x, d, t, p);
  }

  /** The directories are the old ones, those on record and those nobody was told about. */
  ghost predicate MadeDirs(x: Start, dirs: set<Path>, created: seq<Path>, stranded: set<Path>) {
    && Ladder(x.d0, created) && dirs == x.d0 + Elements(created) + stranded && stranded !! x.d0 + Elements(created)
    && x.s0.Keys !! dirs
  }

  /** Where the preparation stands. */
  ghost predicate Preparing(x: Start, d: Disk, muts: seq<StagedFile>, created: seq<Path>, prepared: map<Path, Path>,
          t: Txn, stranded: set<Path>)
  {
    && Underway(x, d, t, map[]) && Accounted(x, d, t)
    && t.backups == map[] && t.installed == {} && t.temps == prepared
    && MadeDirs(x, d.dirs, created, stranded) && Elements(created) <= Prefixes(muts)
  }

  lemma OriginalsAreFiles(x: Start, d: Disk, t: Txn)
    requires Underway(x, d, t, t.backups) && t.backups == map[]
    ensures x.s0.Keys !! d.dirs
  {
  }

  /** The directory of one mutation. */
  method PrepareDir(fs: FileSystem, muts: seq<StagedFile>, i: nat, created0: seq<Path>, ghost prepared: map<Path, Path>,
          ghost x: Start, ghost t: Txn)
    returns (ok: bool, created: seq<Path>, ghost stranded: set<Path>)
    requires Preparing(x, fs.Now(), muts, created0, prepared, t, {}) && i < |muts| && muts[i].path != []
             && Prefixes(muts) <= x.avoid
    requires fs.dirs == x.d0 + Prefixes(muts[..i]) && fs.dirFaults == x.dirFaults
    modifies fs`dirs, fs`dirFaults, fs`raised
    ensures Preparing(x, fs.Now(), muts, created, prepared, t, stranded)
    ensures Blamed(x, muts, fs.dirFaults, stranded)
    ensures ok ==> fs.dirs == x.d0 + Prefixes(muts[..i + 1]) && fs.dirFaults == x.dirFaults && stranded == {}
    ensures ok ==> Parent(muts[i].path) in fs.dirs && fs.raised == old(fs.raised)
    ensures Since(old(fs.Now()), fs.Now())
    ensures !ok && fs.raised == old(fs.raised) ==> exists p :: p in Prefixes(muts) && p in x.s0
  {
    hide Layout, Recoverable, Txn.Litters, Ladder, Disk.Valid, Kept, Prefixes, Blamed, Broke;
    assert Blamed(x, muts, x.dirFaults, {}) by { NobodyToBlame(x, muts); }
    stranded := {};
    var made;
    ok, made := EnsureParent(fs, Parent(muts[i].path));
    created := created0 + made;
    OriginalsAreFiles(x, fs.Now(), t);
    if ok {
      LadderOnLadder(x.d0, created0, made);
      ChainDone(x, old(fs.Now()), fs.Now(), muts, i, made);
    } else {
      assert created == created0;
      if fs.raised == old(fs.raised) {
        InTheWay(x, fs.Now(), t, muts, i);
      } else {
        stranded := ChainBroke(x, old(fs.Now()), fs.Now(), muts, i);
      }
    }
  }

  /** Prepares one mutation: its directory, and for a write its new file. */
  method PrepareOne(fs: FileSystem, muts: seq<StagedFile>, i: nat, avoid: set<Path>, created0: seq<Path>,
          prepared0: map<Path, Path>, ghost x: Start, ghost t: Txn)
    returns (ok: bool, created: seq<Path>, prepared: map<Path, Path>, ghost t': Txn, ghost stranded: set<Path>)
    requires Preparing(x, fs.Now(), muts, created0, prepared0, t, {}) && avoid == x.avoid
    requires Planned(x, muts) && i < |muts| && muts[i].path !in prepared0 && Prefixes(muts) <= x.avoid
    requires muts[i].path != [] && fs.dirs == x.d0 + Prefixes(muts[..i]) && fs.dirFaults == x.dirFaults
    modifies fs
    ensures Preparing(x, fs.Now(), muts, created, prepared, t', stranded)
    ensures Blamed(x, muts, fs.dirFaults, stranded)
    ensures ok ==> fs.dirs == x.d0 + Prefixes(muts[..i + 1]) && fs.dirFaults == x.dirFaults && stranded == {}
    ensures prepared0.Keys <= prepared.Keys <= prepared0.Keys + if muts[i].action.Write? then {muts[i].path} else {}
    ensures ok ==> Parent(muts[i].path) in fs.dirs && fs.raised == old(fs.raised)
    ensures ok && muts[i].action.Write? ==> muts[i].path in prepared
    ensures Since(old(fs.Now()), fs.Now())
    ensures !ok && fs.raised == old(fs.raised) ==> exists p :: p in Prefixes(muts) && p in x.s0
  {
    var c := muts[i];
    PlannedAt(x, muts, i);
    hide Layout, Recoverable, Txn.Litters, Planned, UniquePaths, WellFormedSet, Ladder, Disk.Valid, Kept, Prefixes,
      Blamed, Since;
    prepared, t' := prepared0, t;
    ok, created, stranded := PrepareDir(fs, muts, i, created0, prepared0, x, t);
    if ok && c.action.Write? {
      var temp;
      ghost var d := fs.Now();
      temp, t' := PrepareFile(fs, c, avoid, x, t);
      SinceThen(old(fs.Now()), d, fs.Now());
      ok := temp.Some?;
      if ok { prepared := prepared0[c.path := temp.value]; }
    }
  }

  lemma NobodyToBlame(x: Start, muts: seq<StagedFile>)
    ensures Blamed(x, muts, x.dirFaults, {})
  {
  }

  method Prepare(fs: FileSystem, muts: seq<StagedFile>, avoid: set<Path>, ghost x: Start, ghost t: Txn)
    returns (ok: bool, created: seq<Path>, prepared: map<Path, Path>, ghost t': Txn, ghost stranded: set<Path>)
    requires Preparing(x, fs.Now(), muts, [], map[], t, {}) && avoid == x.avoid
    requires Planned(x, muts) && x.news.Keys <= Targets(muts) && Prefixes(muts) <= x.avoid
    requires fs.dirs == x.d0 && fs.dirFaults == x.dirFaults
    modifies fs
    ensures Preparing(x, fs.Now(), muts, created, prepared, t', stranded)
    ensures Blamed(x, muts, fs.dirFaults, stranded)
    ensures prepared.Keys <= x.news.Keys
    ensures ok ==> stranded == {} && fs.dirFaults == x.dirFaults && fs.dirs == x.d0 + Prefixes(muts)
    ensures ok ==> prepared.Keys == x.news.Keys && forall c | c in muts :: Parent(c.path) in fs.dirs
    ensures Since(old(fs.Now()), fs.Now()) && (ok ==> fs.raised == old(fs.raised))
    ensures !ok && fs.raised == old(fs.raised) ==> exists p :: p in Prefixes(muts) && p in x.s0
  {
    hide Preparing, Planned, UniquePaths, WellFormedSet, Prefixes, Blamed;
    NobodyToBlame(x, muts);
    ok, created, prepared, t', stranded := true, [], map[], t, {};
    var i := 0;
    assert Prefixes(muts[..0]) == {} by { NoPrefixes(muts[..0]); }
    while i < |muts|
      invariant 0 <= i <= |muts| && ok && stranded == {}
      invariant Preparing(x, fs.Now(), muts, created, prepared, t', {})
      invariant fs.dirs == x.d0 + Prefixes(muts[..i]) && fs.dirFaults == x.dirFaults
      invariant fs.raised == old(fs.raised) && Since(old(fs.Now()), fs.Now())
      invariant prepared.Keys <= Targets(muts[..i]) && prepared.Keys <= x.news.Keys
      invariant forall j | 0 <= j < i :: muts[j].path != [] && Parent(muts[j].path) in fs.dirs
      invariant forall p | p in x.news && p in Targets(muts[..i]) :: p in prepared
    {
      PlannedAt(x, muts, i);
      assert muts[i] in muts && muts[..i + 1] == muts[..i] + [muts[i]];
      PrefixesStep(muts, i);
      ok, created, prepared, t', stranded := PrepareOne(fs, muts, i, avoid, created, prepared, x, t');
      if !ok { return; }
      i := i + 1;
    }
    assert muts[..i] == muts;
  }

  lemma NoPrefixes(none: seq<StagedFile>)
    requires none == []
    ensures Prefixes(none) == {}
  {
  }

  /** Rechecks one baseline: a conflict, a read that raised, or it holds. */
  method AssertBaseline(fs: FileSystem, c: StagedFile) returns (failure: Option<Cause>)
    requires fs.Valid()
    modifies fs`raised
    ensures failure.None? ==> Matches(c.baseline, c.path, fs.files, fs.dirs) && fs.raised == old(fs.raised)
    ensures failure == Some(Conflict(c.path)) ==>
              !Matches(c.baseline, c.path, fs.files, fs.dirs) && fs.raised == old(fs.raised)
    ensures failure.Some? && failure != Some(Conflict(c.path)) ==>
              failure == Some(Io) && fs.raised == old(fs.raised) + 1
  {
    match c.baseline
    case Absent =>
      failure := if fs.Exists(c.path) then Some(Conflict(c.path)) else None;
    case Present(data, mode) =>
      if !fs.Exists(c.path) || c.path in fs.dirs { return Some(Conflict(c.path)); }
      var current := fs.Read(c.path);
      if current.None? { return Some(Io); }
      failure := if current.value == File(data, mode) then None else Some(Conflict(c.path));
  }

  /** The first recheck of the whole set. */
  method AssertBaselines(fs: FileSystem, changes: seq<StagedFile>) returns (failure: Option<Cause>)
    requires fs.Valid()
    modifies fs`raised
    ensures failure.None? ==> forall c | c in changes :: Matches(c.baseline, c.path, fs.files, fs.dirs)
    ensures failure.Some? && fs.raised == old(fs.raised) ==>
              exists c :: c in changes && !Matches(c.baseline, c.path, fs.files, fs.dirs)
    ensures old(fs.raised) <= fs.raised && (failure.None? ==> fs.raised == old(fs.raised))
  {
    failure := None;
    var i := 0;
    while i < |changes|
      invariant 0 <= i <= |changes| && failure.None? && fs.raised == old(fs.raised)
      invariant forall j | 0 <= j < i :: Matches(changes[j].baseline, changes[j].path, fs.files, fs.dirs)
    {
      failure := AssertBaseline(fs, changes[i]);
      if failure.Some? {
        assert changes[i] in changes;
        return;
      }
      i := i + 1;
    }
  }

  /** Nothing the protocol relies on depends on how often something has raised. */
  lemma StillInstalling(x: Start, d: Disk, n: nat, prepared: map<Path, Path>, backups: map<Path, Path>,
          installed: set<Path>, t: Txn)
    requires Installing(x, d, prepared, backups, installed, t)
    ensures Installing(x, d.(raised := n), prepared, backups, installed, t)
  {
    hide Layout, Recoverable, Txn.Litters;
  }

  /** Moves one original to a fresh name beside it. */
  method MoveOneAside(fs: FileSystem, p: Path, avoid: set<Path>, ghost x: Start, ghost t: Txn)
    returns (r: Option<Path>, ghost t': Txn)
    requires Underway(x, fs.Now(), t, t.backups) && Accounted(x, fs.Now(), t) && avoid == x.avoid
    requires p != [] && p in x.s0 && p in x.avoid && p !in t.backups && p !in t.installed
    modifies fs
    ensures Underway(x, fs.Now(), t', t'.backups) && Accounted(x, fs.Now(), t')
    ensures fs.dirs == old(fs.dirs) && fs.dirFaults == old(fs.dirFaults)
    ensures t'.temps == t.temps && t'.installed == t.installed
    ensures t'.backups == if r.Some? then t.backups[p := r.value] else t.backups
    ensures Since(old(fs.Now()), fs.Now())
    ensures r.Some? ==> fs.raised == old(fs.raised)
    ensures r.None? && Parent(p) in fs.dirs ==> old(fs.raised) < fs.raised
  {
    hide Layout, Recoverable, Txn.Litters;
    r, t' := Reserve(fs, Parent(p), avoid, x, t);
    if r.None? { return; }
    var ok;
    ok, t' := DropLitter(fs, r.value, x, t');
    assert ok || fs.unlinkFaults[|x.faults|..] == old(fs.unlinkFaults[|x.faults|..]) + [r.value];
    if ok {
      ok, t' := MoveAside(fs, p, r.value, x, t');
    }
    if !ok { r := None; }
  }

  /** The temporary names that have been renamed or removed are free again. */
  ghost predicate Spent(x: Start, d: Disk, prepared: map<Path, Path>, t: Txn)
  {
    forall p | p in prepared && p !in t.temps :: prepared[p] !in d.files && prepared[p] !in x.avoid
  }

  lemma SpentStep(x: Start, d: Disk, d': Disk, prepared: map<Path, Path>, t: Txn, t': Txn, p: Path)
    requires Spent(x, d, prepared, t) && p in prepared && p in x.avoid && prepared[p] !in x.avoid
    requires t'.temps == t.temps || (t'.temps == t.temps - {p} && prepared[p] !in d'.files)
    requires d'.files.Keys <= d.files.Keys + {p}
    ensures Spent(x, d', prepared, t')
  {
  }

  /** With these directories nothing but a raise can stop the changes from being installed. */
  ghost predicate Ready(x: Start, dirs: set<Path>, changes: seq<StagedFile>) {
    forall c | c in changes ::
      c.path !in dirs && (c.path == [] || c.action.Verify? || Parent(c.path) in dirs)
      && Matches(c.baseline, c.path, x.s0, dirs)
  }

  /** The three records the code keeps agree with the layout. */
  ghost predicate Installing(x: Start, d: Disk, prepared: map<Path, Path>, backups: map<Path, Path>,
          installed: set<Path>, t: Txn)
  {
    && Underway(x, d, t, backups) && Accounted(x, d, t) && Spent(x, d, prepared, t)
    && t.backups == backups && t.installed == installed && t.temps == prepared - installed
  }

  /** One target of the second phase: a conflict, a raise, nothing to move, or moved aside. */
  method BackUpOne(fs: FileSystem, c: StagedFile, avoid: set<Path>, before: map<Path, Path>,
          ghost prepared: map<Path, Path>, ghost x: Start, ghost t: Txn)
    returns (failure: Option<Cause>, backups: map<Path, Path>, ghost t': Txn)
    requires Installing(x, fs.Now(), prepared, before, {}, t) && avoid == x.avoid
    requires c.path != [] && c.path in x.avoid && c.path !in before
    modifies fs
    ensures Installing(x, fs.Now(), prepared, backups, {}, t')
    ensures fs.dirs == old(fs.dirs) && fs.dirFaults == old(fs.dirFaults)
    ensures before.Keys <= backups.Keys <= before.Keys + {c.path}
    ensures backups.Keys - before.Keys <= x.s0.Keys
    ensures failure.None? && c.path in x.s0 ==> c.path in backups
    ensures Since(old(fs.Now()), fs.Now()) && (failure.None? ==> fs.raised == old(fs.raised))
    ensures failure.Some? && fs.raised == old(fs.raised) ==> !Matches(c.baseline, c.path, x.s0, fs.dirs)
  {
    backups, t' := before, t;
    Untouched(x, fs.Now(), t, c.path);
    failure := AssertBaseline(fs, c);
    if failure.Some? { return; }
    if fs.Exists(c.path) {
      hide Layout, Recoverable, Txn.Litters, Disk.Valid, Kept, Remembers;
      var b;
      b, t' := MoveOneAside(fs, c.path, avoid, x, t);
      failure := if b.None? then Some(Io) else None;
      backups := if b.None? then before else before[c.path := b.value];
    }
  }

  method BackUp(fs: FileSystem, muts: seq<StagedFile>, avoid: set<Path>, ghost prepared: map<Path, Path>,
          ghost x: Start, ghost t: Txn)
    returns (failure: Option<Cause>, backups: map<Path, Path>, ghost t': Txn)
    requires Installing(x, fs.Now(), prepared, map[], {}, t) && avoid == x.avoid && Planned(x, muts)
    modifies fs
    ensures Installing(x, fs.Now(), prepared, backups, {}, t')
    ensures fs.dirs == old(fs.dirs) && fs.dirFaults == old(fs.dirFaults)
    ensures backups.Keys <= Targets(muts) && backups.Keys <= x.s0.Keys
    ensures failure.None? ==> backups.Keys == x.s0.Keys * Targets(muts)
    ensures Since(old(fs.Now()), fs.Now()) && (failure.None? ==> fs.raised == old(fs.raised))
    ensures failure.Some? && fs.raised == old(fs.raised) ==> !Ready(x, fs.dirs, muts)
  {
    hide Installing, Planned, Matches;
    failure, backups, t' := None, map[], t;
    var i := 0;
    while i < |muts|
      invariant 0 <= i <= |muts|
      invariant Installing(x, fs.Now(), prepared, backups, {}, t')
      invariant failure.None? && fs.raised == old(fs.raised) && fs.dirs == old(fs.dirs)
                && fs.dirFaults == old(fs.dirFaults)
      invariant Since(old(fs.Now()), fs.Now())
      invariant backups.Keys <= Targets(muts[..i]) && backups.Keys <= x.s0.Keys
      invariant x.s0.Keys * Targets(muts[..i]) <= backups.Keys
    {
      PlannedAt(x, muts, i);
      assert muts[i] in muts && muts[..i + 1] == muts[..i] + [muts[i]];
      failure, backups, t' := BackUpOne(fs, muts[i], avoid, backups, prepared, x, t');
      if failure.Some? {
        assert muts[i] in muts;
        return;
      }
      i := i + 1;
    }
    assert muts[..i] == muts;
  }

  lemma MatchesStart(x: Start, d: Disk, t: Txn, c: StagedFile)
    requires Underway(x, d, t, t.backups)
    requires c.path in x.avoid && c.path !in t.backups && c.path !in t.installed
    ensures d.Valid()
    ensures Matches(c.baseline, c.path, d.files, d.dirs) <==> Matches(c.baseline, c.path, x.s0, d.dirs)
  {
    Untouched(x, d, t, c.path);
  }

  /** Until it is moved aside or replaced, a target is as it was. */
  lemma Untouched(x: Start, d: Disk, t: Txn, p: Path)
    requires Layout(x.s0, d.files, x.news, x.avoid, t)
    requires p in x.avoid && p !in t.backups && p !in t.installed
    ensures (p in d.files <==> p in x.s0) && (p in x.s0 ==> d.files[p] == x.s0[p])
  {
  }

  /** One target of the install phase: a raise, a conflict on a path that was new, or installed. */
  method InstallOne(fs: FileSystem, c: StagedFile, prepared: map<Path, Path>, backups: map<Path, Path>,
          before: set<Path>, ghost x: Start, ghost t: Txn)
    returns (failure: Option<Cause>, installed: set<Path>, ghost t': Txn)
    requires Installing(x, fs.Now(), prepared, backups, before, t)
    requires c.path in prepared && c.path !in before && c.path in x.avoid && c.path != []
             && (c.path in x.s0 ==> c.path in backups)
    modifies fs
    ensures Installing(x, fs.Now(), prepared, backups, installed, t')
    ensures fs.dirs == old(fs.dirs) && fs.dirFaults == old(fs.dirFaults)
    ensures installed == if failure.None? then before + {c.path} else before
    ensures Since(old(fs.Now()), fs.Now()) && (failure.None? ==> fs.raised == old(fs.raised))
    ensures failure.Some? && c.path !in fs.dirs && Parent(c.path) in fs.dirs
            && Matches(c.baseline, c.path, x.s0, fs.dirs)
            ==> old(fs.raised) < fs.raised
  {
    hide Layout, Recoverable, Txn.Litters, Disk.Valid, Matches, Kept, Underway, Spent;
    failure, installed, t' := None, before, t;
    if c.path !in backups {
      MatchesStart(x, fs.Now(), t, c);
      failure := AssertBaseline(fs, c);
      StillInstalling(x, old(fs.Now()), fs.raised, prepared, backups, before, t);
      if failure.Some? { return; }
    }
    assert t.temps[c.path] == prepared[c.path];
    var ok;
    ghost var d := fs.Now();
    ok, t' := Install(fs, c.path, prepared[c.path], x, t);
    SpentStep(x, d, fs.Now(), prepared, t, t', c.path);
    if ok {
      installed := before + {c.path};
      assert prepared - installed == (prepared - before) - {c.path};
    } else {
      failure := Some(Io);
    }
  }

  method InstallAll(fs: FileSystem, muts: seq<StagedFile>, prepared: map<Path, Path>, backups: map<Path, Path>,
          ghost x: Start, ghost t: Txn)
    returns (failure: Option<Cause>, installed: set<Path>, ghost t': Txn)
    requires Installing(x, fs.Now(), prepared, backups, {}, t) && Planned(x, muts)
    requires prepared.Keys <= Targets(muts) && prepared.Keys <= x.news.Keys
    requires x.s0.Keys * Targets(muts) <= backups.Keys
    modifies fs
    ensures Installing(x, fs.Now(), prepared, backups, installed, t')
    ensures fs.dirs == old(fs.dirs) && fs.dirFaults == old(fs.dirFaults)
    ensures installed <= prepared.Keys
    ensures failure.None? ==> installed == prepared.Keys
    ensures Since(old(fs.Now()), fs.Now()) && (failure.None? ==> fs.raised == old(fs.raised))
    ensures failure.Some? && fs.raised == old(fs.raised) ==> !Ready(x, fs.dirs, muts)
  {
    hide Installing, Planned;
    failure, installed, t' := None, {}, t;
    var i := 0;
    while i < |muts|
      invariant 0 <= i <= |muts|
      invariant Installing(x, fs.Now(), prepared, backups, installed, t')
      invariant failure.None? && fs.raised == old(fs.raised) && fs.dirs == old(fs.dirs)
                && fs.dirFaults == old(fs.dirFaults)
      invariant Since(old(fs.Now()), fs.Now())
      invariant installed <= prepared.Keys
      invariant installed <= Targets(muts[..i])
      invariant forall j | 0 <= j < i :: muts[j].path in prepared ==> muts[j].path in installed
    {
      var c := muts[i];
      PlannedAt(x, muts, i);
      assert c in muts && c.path in Targets(muts) && muts[..i + 1] == muts[..i] + [c];
      if c.path in prepared {
        failure, installed, t' := InstallOne(fs, c, prepared, backups, installed, x, t');
        if failure.Some? { return; }
      }
      i := i + 1;
    }
  }

  /** What the try block leaves for the handler, wherever it stopped. */
  ghost predicate Attempted(x: Start, d: Disk, muts: seq<StagedFile>, created: seq<Path>, prepared: map<Path, Path>,
          backups: map<Path, Path>, installed: set<Path>, t: Txn, stranded: set<Path>)
  {
    && Installing(x, d, prepared, backups, installed, t)
    && prepared.Keys <= Targets(muts) && prepared.Keys <= x.news.Keys && backups.Keys <= Targets(muts)
    && installed <= prepared.Keys
    && MadeDirs(x, d.dirs, created, stranded) && Elements(created) <= Prefixes(muts)
    && Blamed(x, muts, d.dirFaults, stranded)
  }

  /** Takes the new file of one target out again. */
  method TakeOut(fs: FileSystem, p: Path, installed: set<Path>, ghost x: Start, ghost t: Txn,
          ghost recorded: map<Path, Path>)
    returns (ok: bool, ghost t': Txn)
    requires Underway(x, fs.Now(), t, recorded) && Remembers(recorded, t)
    requires p in t.installed <==> p in installed
    modifies fs
    ensures Underway(x, fs.Now(), t', recorded) && Remembers(recorded, t')
    ensures fs.dirs == old(fs.dirs) && fs.dirFaults == old(fs.dirFaults)
    ensures fs.files.Keys <= old(fs.files).Keys && t'.Litters() == t.Litters()
    ensures t' == if ok then t.(installed := t.installed - {p}) else t
    ensures ok ==> fs.raised == old(fs.raised) && fs.unlinkFaults == old(fs.unlinkFaults)
    ensures !ok ==> old(fs.raised) < fs.raised && RefusedSince(x, fs.Now(), p)
    ensures Since(old(fs.Now()), fs.Now())
  {
    assert p in t.installed ==> p in fs.files;
    hide Layout, Recoverable, Txn.Litters, RefusedSince;
    ok, t' := true, t;
    if p in installed && fs.Exists(p) && p !in fs.dirs {
      ok, t' := Uninstall(fs, p, x, t, recorded);
      if !ok { RefusedLast(x, fs.Now(), old(fs.unlinkFaults), p); }
    } else {
      assert t == t.(installed := t.installed - {p});
    }
  }

  lemma BackupIsThere(x: Start, d: Disk, t: Txn, backups: map<Path, Path>, p: Path)
    requires Underway(x, d, t, backups) && Remembers(backups, t) && p in backups && p in t.backups
    ensures backups[p] == t.backups[p] && backups[p] in d.files && p in x.s0
  {
  }

  /** Puts one target back: takes out the new file, then returns the original. */
  method Undo(fs: FileSystem, p: Path, backups: map<Path, Path>, installed: set<Path>, ghost x: Start, ghost t: Txn)
    returns (ok: bool, ghost t': Txn)
    requires Underway(x, fs.Now(), t, backups) && Remembers(backups, t)
    requires p in x.avoid && p != [] && (p in t.installed <==> p in installed) && (p in backups ==> p in t.backups)
    modifies fs
    ensures Underway(x, fs.Now(), t', backups) && Remembers(backups, t')
    ensures fs.dirs == old(fs.dirs) && fs.dirFaults == old(fs.dirFaults)
    ensures fs.files.Keys <= old(fs.files).Keys + {p}
    ensures t'.temps == t.temps && t'.Litters() == t.Litters()
    ensures t'.installed == t.installed || t'.installed == t.installed - {p}
    ensures t'.backups == t.backups || t'.backups == t.backups - {p}
    ensures ok ==> p !in t'.installed && p !in t'.backups && fs.unlinkFaults == old(fs.unlinkFaults)
    ensures p in t'.installed ==> RefusedSince(x, fs.Now(), p)
    ensures Since(old(fs.Now()), fs.Now()) && (ok ==> fs.raised == old(fs.raised))
    ensures !ok && (p in x.s0 ==> p !in fs.dirs && Parent(p) in fs.dirs) ==> old(fs.raised) < fs.raised
  {
    hide Underway, Txn.Litters, RefusedSince;
    assert p in t.backups ==> p in backups;
    ok, t' := TakeOut(fs, p, installed, x, t, backups);
    if ok && p in backups {
      BackupIsThere(x, fs.Now(), t', backups, p);
      if !fs.Exists(backups[p]) { return false, t'; }
      ok, t' := Restore(fs, p, backups[p], x, t', backups);
    }
  }

  /** One of the temporary files, if it is still known. */
  method DropNext(fs: FileSystem, p: Path, prepared: map<Path, Path>, ghost x: Start, ghost t: Txn,
          ghost recorded: map<Path, Path>)
    returns (gone: bool, ghost t': Txn)
    requires Underway(x, fs.Now(), t, recorded) && Remembers(recorded, t) && Spent(x, fs.Now(), prepared, t)
    requires p in prepared && (p in t.temps ==> prepared[p] == t.temps[p])
    modifies fs
    ensures Underway(x, fs.Now(), t', recorded) && Spent(x, fs.Now(), prepared, t')
    ensures fs.dirs == old(fs.dirs) && fs.dirFaults == old(fs.dirFaults)
    ensures t'.backups == t.backups && t'.installed == t.installed && t'.Litters() == t.Litters()
    ensures forall q | q in t'.temps :: q in t.temps && t'.temps[q] == t.temps[q]
    ensures p in t'.temps ==> RefusedSince(x, fs.Now(), t'.temps[p])
    ensures forall q | RefusedSince(x, old(fs.Now()), q) :: RefusedSince(x, fs.Now(), q)
    ensures gone ==> p !in t'.temps && fs.unlinkFaults == old(fs.unlinkFaults)
    ensures t.temps == map[] ==> t' == t && gone && fs.files == old(fs.files)
    ensures Since(old(fs.Now()), fs.Now()) && old(fs.raised) + (if gone then 0 else 1) <= fs.raised
  {
    hide Underway, Spent, Remembers, Txn.Litters, RefusedSince, Since;
    ghost var d := fs.Now();
    SpentAt(x, d, prepared, t, p);
    gone, t' := DropTemp(fs, p, prepared[p], x, t, recorded);
    SpentDrop(x, d, fs.Now(), prepared, t, t', p);
    RefusedStays(x, d, fs.Now());
    if !gone { RefusedAfter(x, d, fs.Now(), recorded, t, prepared[p]); }
  }

  method DropTemps(fs: FileSystem, muts: seq<StagedFile>, prepared: map<Path, Path>, ghost x: Start, ghost t: Txn,
          ghost recorded: map<Path, Path>)
    returns (ok: bool, ghost t': Txn)
    requires Underway(x, fs.Now(), t, recorded) && Remembers(recorded, t) && Spent(x, fs.Now(), prepared, t)
    requires prepared.Keys <= Targets(muts)
    requires forall p | p in t.temps :: p in prepared && prepared[p] == t.temps[p]
    modifies fs
    ensures Underway(x, fs.Now(), t', recorded) && Spent(x, fs.Now(), prepared, t')
    ensures fs.dirs == old(fs.dirs) && fs.dirFaults == old(fs.dirFaults)
    ensures t'.backups == t.backups && t'.installed == t.installed && t'.Litters() == t.Litters()
    ensures forall p | p in t'.temps :: p in t.temps && t'.temps[p] == t.temps[p]
    ensures ok ==> t'.temps == map[] && fs.unlinkFaults == old(fs.unlinkFaults)
    ensures forall p | p in t'.temps :: RefusedSince(x, fs.Now(), t'.temps[p])
    ensures t.temps == map[] ==> t' == t && ok && fs.files == old(fs.files)
    ensures Since(old(fs.Now()), fs.Now()) && (!ok ==> old(fs.raised) < fs.raised)
  {
    hide Underway, Spent, Remembers, Txn.Litters, RefusedSince, Since;
    ok, t' := true, t;
    SinceThen(fs.Now(), fs.Now(), fs.Now());
    var i := 0;
    while i < |muts|
      invariant 0 <= i <= |muts|
      invariant Underway(x, fs.Now(), t', recorded) && Spent(x, fs.Now(), prepared, t')
      invariant Since(old(fs.Now()), fs.Now()) && old(fs.raised) + (if ok then 0 else 1) <= fs.raised
      invariant fs.dirs == old(fs.dirs) && fs.dirFaults == old(fs.dirFaults)
      invariant t'.backups == t.backups && t'.installed == t.installed && t'.Litters() == t.Litters()
      invariant forall p | p in t'.temps :: p in t.temps && t'.temps[p] == t.temps[p]
      invariant forall j | 0 <= j < i && muts[j].path in t'.temps :: RefusedSince(x, fs.Now(), t'.temps[muts[j].path])
      invariant ok ==> fs.unlinkFaults == old(fs.unlinkFaults) && forall j | 0 <= j < i :: muts[j].path !in t'.temps
      invariant t.temps == map[] ==> t' == t && ok && fs.files == old(fs.files)
    {
      if muts[i].path in prepared {
        var gone;
        ghost var d := fs.Now();
        RemembersSame(recorded, t, t');
        gone, t' := DropNext(fs, muts[i].path, prepared, x, t', recorded);
        SinceThen(old(fs.Now()), d, fs.Now());
        ok := ok && gone;
      }
      i := i + 1;
    }
  }

  lemma RemembersSame(recorded: map<Path, Path>, t: Txn, t': Txn)
    requires Remembers(recorded, t) && t'.backups == t.backups
    ensures Remembers(recorded, t')
  {
  }

  lemma SpentAt(x: Start, d: Disk, prepared: map<Path, Path>, t: Txn, p: Path)
    requires Spent(x, d, prepared, t) && p in prepared
    ensures p !in t.temps ==> prepared[p] !in d.files && prepared[p] !in x.avoid
  {
  }

  lemma SpentDrop(x: Start, d: Disk, d': Disk, prepared: map<Path, Path>, t: Txn, t': Txn, p: Path)
    requires Spent(x, d, prepared, t) && p in prepared && prepared[p] !in x.avoid && d'.files.Keys <= d.files.Keys
    requires t'.temps == t.temps || (t'.temps == t.temps - {p} && prepared[p] !in d'.files)
    ensures Spent(x, d', prepared, t')
  {
  }

  lemma RefusedAfter(x: Start, d: Disk, d': Disk, recorded: map<Path, Path>, t: Txn, p: Path)
    requires Underway(x, d, t, recorded) && d'.unlinkFaults == d.unlinkFaults + [p]
    ensures RefusedSince(x, d', p)
  {
    RefusedLast(x, d', d.unlinkFaults, p);
  }

  lemma LadderStep(d0: set<Path>, created: seq<Path>, k: nat)
    requires Ladder(d0, created) && k < |created|
    ensures var d := created[k];
            && d != [] && d !in d0 && d !in Elements(created[..k]) && d in Elements(created)
            && Elements(created[..k + 1]) == Elements(created[..k]) + {d}
            && Elements(created[..k + 1]) <= Elements(created)
  {
    assert created[..k + 1] == created[..k] + [created[k]];
  }

  lemma NoneLeft(created: seq<Path>)
    ensures Elements(created[..0]) == {}
  {
  }

  /** Newest first, no directory that is still there lies inside the one to be removed. */
  lemma NothingInside(d0: set<Path>, created: seq<Path>, k: nat)
    requires Ladder(d0, created) && k < |created|
    requires [] in d0 && forall d | d in d0 && d != [] :: Parent(d) in d0
    ensures created[k] !in d0 && forall p | p in d0 + Elements(created[..k + 1]) && p != [] :: Parent(p) != created[k]
  {
    forall p | p in Elements(created[..k + 1]) ensures p != [] && Parent(p) != created[k] {
      var i :| 0 <= i < k + 1 && created[i] == p;
      if Parent(p) in created[..i] {
        var j :| 0 <= j < i && created[..i][j] == Parent(p);
        assert created[j] == Parent(p);
      }
    }
  }

  /** Each of `stuck` was not removed because its rmdir raised, or because something lies in it. */
  ghost predicate Stuck(stuck: set<Path>, faults: seq<DirFault>, d: Disk) {
    && faults <= d.dirFaults
    && (forall i | |faults| <= i < |d.dirFaults| :: d.dirFaults[i].RmdirFault? && d.dirFaults[i].dir in stuck)
    && (forall q | q in stuck :: RmdirFault(q) in d.dirFaults[|faults|..] || Occupied(d.files, d.dirs, q))
  }

  lemma StuckRemoved(stuck: set<Path>, faults: seq<DirFault>, d: Disk, d': Disk, q: Path)
    requires Stuck(stuck, faults, d) && d'.files == d.files && d'.dirs == d.dirs - {q} && d'.dirFaults == d.dirFaults
    requires q != [] && Parent(q) !in stuck
    ensures Stuck(stuck, faults, d')
  {
    forall s | s in stuck && Occupied(d.files, d.dirs, s) ensures Occupied(d'.files, d'.dirs, s) {
      var p :| p in d.files.Keys + d.dirs && p != [] && Parent(p) == s;
      assert p in d'.files.Keys + d'.dirs;
    }
  }

  lemma StuckKept(stuck: set<Path>, faults: seq<DirFault>, d: Disk, d': Disk, q: Path, raised: bool)
    requires Stuck(stuck, faults, d) && d'.files == d.files && d'.dirs == d.dirs
    requires d'.dirFaults == d.dirFaults + if raised then [RmdirFault(q)] else []
    requires raised || Occupied(d.files, d.dirs, q)
    ensures Stuck(stuck + {q}, faults, d')
  {
    forall f | f in d.dirFaults[|faults|..] ensures f in d'.dirFaults[|faults|..] {
      var i :| |faults| <= i < |d.dirFaults| && d.dirFaults[i] == f;
      assert d'.dirFaults[|faults|..][i - |faults|] == f;
    }
    if raised { assert d'.dirFaults[|faults|..][|d.dirFaults| - |faults|] == RmdirFault(q); }
  }

  /** No directory lies inside one made after it. */
  lemma NotInLater(d0: set<Path>, created: seq<Path>, k: nat)
    requires Ladder(d0, created) && k < |created|
    ensures Parent(created[k]) !in Elements(created) - Elements(created[..k])
  {
    assert Parent(created[k]) in created[..k] ==> Parent(created[k]) in Elements(created[..k]);
  }

  /** Removes the directories the commit made, newest first; a refusal is swallowed. */
  method RemoveDirs(fs: FileSystem, created: seq<Path>, ghost d0: set<Path>, ghost stranded: set<Path>)
    returns (ghost stuck: set<Path>)
    requires fs.Valid() && Ladder(d0, created)
    requires fs.dirs == d0 + Elements(created) + stranded && stranded !! d0 + Elements(created)
    requires [] in d0 && forall d | d in d0 && d != [] :: Parent(d) in d0
    modifies fs`dirs, fs`dirFaults, fs`raised
    ensures fs.Valid() && Since(old(fs.Now()), fs.Now())
    ensures fs.dirs == d0 + stranded + stuck && stuck <= Elements(created)
    ensures Stuck(stuck, old(fs.dirFaults), fs.Now())
    ensures stranded == {} && (forall p | p in fs.files :: Parent(p) in d0) && fs.dirFaults == old(fs.dirFaults) ==>
              stuck == {}
  {
    hide Ladder, Elements, Stuck, Occupied;
    stuck := {};
    var k := |created|;
    assert created[..k] == created;
    NoneLeft(created);
    NoneStuck(fs.Now());
    while 0 < k
      invariant 0 <= k <= |created| && fs.Valid() && Since(old(fs.Now()), fs.Now())
      invariant fs.dirs == d0 + Elements(created[..k]) + stranded + stuck
                && stuck <= Elements(created) - Elements(created[..k])
      invariant Stuck(stuck, old(fs.dirFaults), fs.Now())
      invariant stranded == {} && (forall p | p in fs.files :: Parent(p) in d0) && |fs.dirFaults| == |old(fs.dirFaults)|
                ==> stuck == {} && fs.dirFaults == old(fs.dirFaults)
    {
      k := k - 1;
      var d := created[k];
      LadderStep(d0, created, k);
      NotInLater(d0, created, k);
      if forall p | p in fs.files :: Parent(p) in d0 {
        NothingInside(d0, created, k);
        if stranded == {} && stuck == {} { Unoccupied(fs.files, fs.dirs, d0, created, k); }
      }
      ghost var was := fs.Now();
      var r := fs.Rmdir(d);
      if r.Removed? {
        StuckRemoved(stuck, old(fs.dirFaults), was, fs.Now(), d);
      } else {
        StuckKept(stuck, old(fs.dirFaults), was, fs.Now(), d, r.Raised?);
        stuck := stuck + {d};
      }
    }
  }

  lemma NoneStuck(d: Disk)
    ensures Stuck({}, d.dirFaults, d)
  {
  }

  lemma Unoccupied(files: Files, dirs: set<Path>, d0: set<Path>, created: seq<Path>, k: nat)
    requires k < |created| && created[k] !in d0 && dirs == d0 + Elements(created[..k + 1])
    requires forall p | p in files :: p != [] && Parent(p) in d0
    requires forall p | p in d0 + Elements(created[..k + 1]) && p != [] :: Parent(p) != created[k]
    ensures !Occupied(files, dirs, created[k])
  {
  }

  /** Every original can be put back where it was. */
  ghost predicate RoomFor(x: Start, dirs: set<Path>) {
    forall p | p in x.s0 :: p != [] && p !in dirs && Parent(p) in dirs
  }

  /** Where the rollback stands: the targets in `left` have not been looked at yet. */
  ghost predicate Undoing(x: Start, d: Disk, prepared: map<Path, Path>, backups: map<Path, Path>, installed: set<Path>,
          t: Txn, t': Txn, left: set<Path>)
  {
    && Underway(x, d, t', backups) && Remembers(backups, t') && Spent(x, d, prepared, t')
    && t'.temps == t.temps && t'.Litters() == t.Litters()
    && t'.installed <= installed && t'.backups.Keys <= backups.Keys
    && left * installed <= t'.installed && left * backups.Keys <= t'.backups.Keys
    && (forall p | p in t'.installed :: p in left || RefusedSince(x, d, p))
  }

  lemma UndoingStart(x: Start, d: Disk, muts: seq<StagedFile>, prepared: map<Path, Path>, backups: map<Path, Path>,
          installed: set<Path>, t: Txn)
    requires Installing(x, d, prepared, backups, installed, t) && backups.Keys <= Targets(muts)
             && installed <= Targets(muts)
    ensures Undoing(x, d, prepared, backups, installed, t, t, Targets(muts))
            && t.installed + t.backups.Keys <= Targets(muts)
  {
  }

  lemma UndoingDone(x: Start, d: Disk, prepared: map<Path, Path>, backups: map<Path, Path>, installed: set<Path>,
          t: Txn, t': Txn, left: seq<StagedFile>)
    requires Undoing(x, d, prepared, backups, installed, t, t', Targets(left)) && left == []
    ensures Underway(x, d, t', backups) && Remembers(backups, t') && Spent(x, d, prepared, t') && Targets(left) == {}
    ensures t'.temps == t.temps && t'.Litters() == t.Litters()
    ensures forall p | p in t'.installed :: RefusedSince(x, d, p)
    ensures t'.installed + t'.backups.Keys <= Targets(left) ==> t'.installed == {} && t'.backups == map[]
  {
  }

  lemma TargetsStep(changes: seq<StagedFile>, i: nat)
    requires i < |changes|
    ensures Targets(changes[..i + 1]) == Targets(changes[..i]) + {changes[i].path}
  {
    assert changes[..i + 1] == changes[..i] + [changes[i]];
  }

  method UndoOne(fs: FileSystem, p: Path, prepared: map<Path, Path>, backups: map<Path, Path>, installed: set<Path>,
          ghost x: Start, ghost t: Txn, ghost now: Txn, ghost left: set<Path>)
    returns (ok: bool, ghost t': Txn)
    requires Undoing(x, fs.Now(), prepared, backups, installed, t, now, left + {p})
    requires p in x.avoid && p != [] && p !in left
    modifies fs
    ensures Undoing(x, fs.Now(), prepared, backups, installed, t, t', left)
    ensures fs.dirs == old(fs.dirs) && fs.dirFaults == old(fs.dirFaults)
    ensures t'.installed <= now.installed && t'.backups.Keys <= now.backups.Keys
    ensures ok ==> p !in t'.installed && p !in t'.backups && fs.unlinkFaults == old(fs.unlinkFaults)
    ensures Since(old(fs.Now()), fs.Now()) && (!ok && RoomFor(x, fs.dirs) ==> old(fs.raised) < fs.raised)
  {
    hide Underway, Txn.Litters, RefusedSince;
    ok, t' := Undo(fs, p, backups, installed, x, now);
    RefusedStays(x, old(fs.Now()), fs.Now());
  }

  /** The first part of the rollback: every target, last one first. */
  method UndoAll(fs: FileSystem, muts: seq<StagedFile>, prepared: map<Path, Path>, backups: map<Path, Path>,
          installed: set<Path>, ghost x: Start, ghost t: Txn)
    returns (clean: bool, ghost t': Txn)
    requires Installing(x, fs.Now(), prepared, backups, installed, t) && Planned(x, muts)
    requires backups.Keys <= Targets(muts) && installed <= Targets(muts)
    modifies fs
    ensures Underway(x, fs.Now(), t', backups) && Remembers(backups, t') && Spent(x, fs.Now(), prepared, t')
    ensures fs.dirs == old(fs.dirs) && fs.dirFaults == old(fs.dirFaults)
    ensures t'.temps == t.temps && t'.Litters() == t.Litters()
    ensures clean ==> fs.unlinkFaults == old(fs.unlinkFaults) && t'.installed == {} && t'.backups == map[]
    ensures forall p | p in t'.installed :: RefusedSince(x, fs.Now(), p)
    ensures Since(old(fs.Now()), fs.Now())
    ensures !clean && RoomFor(x, fs.dirs) ==> old(fs.raised) < fs.raised
  {
    hide Installing, Underway, Planned, Txn.Litters, Spent, Undoing, RoomFor, Targets, Remembers, UniquePaths,
      WellFormedSet, RefusedSince;
    clean, t' := true, t;
    UndoingStart(x, fs.Now(), muts, prepared, backups, installed, t);
    assert muts[..|muts|] == muts;
    var i := |muts|;
    while 0 < i
      invariant 0 <= i <= |muts|
      invariant Undoing(x, fs.Now(), prepared, backups, installed, t, t', Targets(muts[..i]))
      invariant fs.dirs == old(fs.dirs) && fs.dirFaults == old(fs.dirFaults) && Since(old(fs.Now()), fs.Now())
      invariant !clean && RoomFor(x, fs.dirs) ==> old(fs.raised) < fs.raised
      invariant clean ==>
                  && fs.unlinkFaults == old(fs.unlinkFaults)
                  && t'.installed + t'.backups.Keys <= Targets(muts[..i])
    {
      i := i - 1;
      PlannedAt(x, muts, i);
      TargetsStep(muts, i);
      var ok;
      ok, t' := UndoOne(fs, muts[i].path, prepared, backups, installed, x, t, t', Targets(muts[..i]));
      clean := clean && ok;
    }
    UndoingDone(x, fs.Now(), prepared, backups, installed, t, t', muts[..i]);
  }

  /** Something was in the way of removing `q`: a directory, or a file whose own unlink had raised. */
  ghost predicate Blocked(x: Start, d: Disk, q: Path) {
    exists p: Path :: p != [] && Parent(p) == q && (p in d.dirs || RefusedSince(x, d, p))
  }

  /** Each of `stuck` was not removed because its rmdir raised, or because it was blocked. */
  ghost predicate Left(x: Start, faults: seq<DirFault>, d: Disk, stuck: set<Path>) {
    && faults <= d.dirFaults
    && (forall i | |faults| <= i < |d.dirFaults| :: d.dirFaults[i].RmdirFault? && d.dirFaults[i].dir in stuck)
    && (forall q | q in stuck :: RmdirFault(q) in d.dirFaults[|faults|..] || Blocked(x, d, q))
  }

  /** No file that refused to go lies in a directory the commit made. */
  ghost predicate NoneAfield(x: Start, d: Disk) {
    forall p | RefusedSince(x, d, p) :: p != [] && Parent(p) in x.d0
  }

  /** Files in new directories are files that refused to go. */
  ghost predicate Apart(x: Start, d: Disk) {
    forall p | p in d.files :: p != [] && (Parent(p) in x.d0 || RefusedSince(x, d, p))
  }

  lemma LittersRefused(x: Start, d: Disk, d': Disk, t: Txn)
    requires Accounted(x, d, t) && d.unlinkFaults <= d'.unlinkFaults
    ensures forall p | p in t.Litters() :: RefusedSince(x, d', p)
  {
    RefusedElements(x, d);
    RefusedStays(x, d, d');
  }

  lemma ApartNow(x: Start, d: Disk, t: Txn, recorded: map<Path, Path>)
    requires Underway(x, d, t, recorded) && forall p | p in x.s0 :: p != [] && Parent(p) in x.d0
    requires forall p | p in t.Litters() :: RefusedSince(x, d, p)
    requires forall p | p in t.temps :: RefusedSince(x, d, t.temps[p])
    requires forall p | p in t.installed :: RefusedSince(x, d, p)
    ensures Apart(x, d)
  {
    hide Kept, RefusedSince;
    forall p | p in d.files ensures Parent(p) in x.d0 || RefusedSince(x, d, p) {
      if p in t.role {
        match t.role[p]
        case Litter => assert p in t.Litters();
        case Temp(target) => assert t.temps[target] == p;
        case Backup(target) => assert t.backups[target] == p;
      }
    }
  }

  lemma LeftNow(x: Start, faults: seq<DirFault>, d: Disk, d': Disk, stuck: set<Path>)
    requires Apart(x, d) && d'.files == d.files && d'.unlinkFaults == d.unlinkFaults && Stuck(stuck, faults, d')
             && stuck !! x.d0
    ensures Left(x, faults, d', stuck)
    ensures NoneAfield(x, d') ==> forall p | p in d'.files :: Parent(p) in x.d0
  {
    RefusedStays(x, d, d');
    hide RefusedSince;
    forall q | q in stuck && Occupied(d'.files, d'.dirs, q) ensures Blocked(x, d', q) {
      var p :| p in d'.files.Keys + d'.dirs && p != [] && Parent(p) == q;
    }
  }

  lemma LeftStays(x: Start, faults: seq<DirFault>, d: Disk, d': Disk, stuck: set<Path>)
    requires Left(x, faults, d, stuck) && d.unlinkFaults <= d'.unlinkFaults && d'.dirs == d.dirs
             && d'.dirFaults == d.dirFaults
    ensures Left(x, faults, d', stuck)
    ensures NoneAfield(x, d') ==> NoneAfield(x, d)
  {
    RefusedStays(x, d, d');
    hide RefusedSince;
    forall q | q in stuck && Blocked(x, d, q) ensures Blocked(x, d', q) {
      var p: Path :| p != [] && Parent(p) == q && (p in d.dirs || RefusedSince(x, d, p));
    }
  }

  /** The first two parts of the rollback: the targets, and the files not installed. */
  method RollbackFiles(fs: FileSystem, muts: seq<StagedFile>, prepared: map<Path, Path>, backups: map<Path, Path>,
          installed: set<Path>, ghost x: Start, ghost t: Txn)
    returns (clean: bool, ghost t': Txn)
    requires Installing(x, fs.Now(), prepared, backups, installed, t) && Planned(x, muts)
    requires prepared.Keys <= Targets(muts) && backups.Keys <= Targets(muts) && installed <= Targets(muts)
    requires forall p | p in x.s0 :: p != [] && Parent(p) in x.d0
    modifies fs
    ensures Underway(x, fs.Now(), t', backups) && Remembers(backups, t') && Spent(x, fs.Now(), prepared, t')
    ensures fs.dirs == old(fs.dirs) && fs.dirFaults == old(fs.dirFaults)
    ensures forall p | p in t'.temps :: p in prepared && prepared[p] == t'.temps[p]
    ensures t'.Litters() == t.Litters()
    ensures clean ==> t'.temps == map[] && t'.backups == map[] && t'.installed == {} && Accounted(x, fs.Now(), t')
    ensures Apart(x, fs.Now())
    ensures Since(old(fs.Now()), fs.Now())
    ensures !clean && RoomFor(x, old(fs.dirs)) ==> old(fs.raised) < fs.raised
  {
    hide Layout, Recoverable, Txn.Litters, Planned, Kept, RefusedSince, Apart, RoomFor;
    var dropped;
    clean, t' := UndoAll(fs, muts, prepared, backups, installed, x, t);
    ghost var d := fs.Now();
    dropped, t' := DropTemps(fs, muts, prepared, x, t', backups);
    clean := clean && dropped;
    RefusedStays(x, d, fs.Now());
    LittersRefused(x, old(fs.Now()), fs.Now(), t);
    ApartNow(x, fs.Now(), t', backups);
  }

  method Rollback(fs: FileSystem, muts: seq<StagedFile>, prepared: map<Path, Path>, backups: map<Path, Path>,
          installed: set<Path>, created: seq<Path>, ghost x: Start, ghost t: Txn, ghost stranded: set<Path>)
    returns (clean: bool, ghost t': Txn, ghost stuck: set<Path>)
    requires Attempted(x, fs.Now(), muts, created, prepared, backups, installed, t, stranded) && Planned(x, muts)
    requires [] in x.d0 && forall d | d in x.d0 && d != [] :: Parent(d) in x.d0
    requires forall p | p in x.s0 :: p != [] && Parent(p) in x.d0
    modifies fs
    ensures Underway(x, fs.Now(), t', backups) && Remembers(backups, t') && Spent(x, fs.Now(), prepared, t')
    ensures forall p | p in t'.temps :: p in prepared && prepared[p] == t'.temps[p]
    ensures t'.Litters() == t.Litters()
    ensures clean ==> t'.temps == map[] && t'.backups == map[] && t'.installed == {} && Accounted(x, fs.Now(), t')
    ensures fs.dirs == x.d0 + stranded + stuck && stuck <= Elements(created)
    ensures Left(x, old(fs.dirFaults), fs.Now(), stuck)
    ensures stranded == {} && NoneAfield(x, fs.Now()) && fs.dirFaults == old(fs.dirFaults) ==> stuck == {}
    ensures Since(old(fs.Now()), fs.Now())
    ensures !clean && RoomFor(x, old(fs.dirs)) ==> old(fs.raised) < fs.raised
  {
    hide Layout, Recoverable, Txn.Litters, Planned, Kept, Ladder, RefusedSince, Apart, Left, Stuck, NoneAfield, Blamed,
      Prefixes, RoomFor;
    clean, t' := RollbackFiles(fs, muts, prepared, backups, installed, x, t);
    ghost var d := fs.Now();
    stuck := RemoveDirs(fs, created, x.d0, stranded);
    assert stuck !! x.d0 by { LadderIsNew(x.d0, created); }
    LeftNow(x, old(fs.dirFaults), d, fs.Now(), stuck);
  }

  lemma LadderIsNew(d0: set<Path>, made: seq<Path>)
    requires Ladder(d0, made)
    ensures Elements(made) !! d0
  {
  }

  /** The disk a commit of `changes` is meant to leave, starting from `s0`. */
  ghost function After(s0: Files, changes: seq<StagedFile>): Files
    requires WellFormedSet(changes)
  {
    (s0 - Targets(Mutations(changes))) + News(Mutations(changes))
  }

  /** Every write is in place, every deleted file gone, everything else as it was. */
  ghost predicate Installed(s0: Files, s: Files, muts: seq<StagedFile>)
    requires WellFormedSet(muts)
  {
    && (forall p | p in News(muts) :: p in s && s[p] == News(muts)[p])
    && (forall p | p in s && p in Targets(muts) :: p in News(muts))
    && (forall p | p in s0 && p !in Targets(muts) :: p in s && s[p] == s0[p])
  }

  lemma InstalledWithout(s0: Files, s: Files, muts: seq<StagedFile>, drop: set<Path>)
    requires WellFormedSet(muts) && Installed(s0, s, muts)
    requires drop !! s0.Keys && drop !! News(muts).Keys
    ensures Installed(s0, s - drop, muts)
  {
  }

  /** The backups of the first `n` mutations. */
  ghost function BackupsOf(muts: seq<StagedFile>, n: nat, backups: map<Path, Path>): set<Path>
    requires n <= |muts|
  {
    set j | 0 <= j < n && muts[j].path in backups :: backups[muts[j].path]
  }

  lemma BackupsOfNone(muts: seq<StagedFile>, backups: map<Path, Path>)
    ensures BackupsOf(muts, 0, backups) == {}
  {
  }

  lemma BackupsOfStep(muts: seq<StagedFile>, i: nat, backups: map<Path, Path>)
    requires i < |muts|
    ensures BackupsOf(muts, i + 1, backups) ==
              BackupsOf(muts, i, backups) + if muts[i].path in backups then {backups[muts[i].path]} else {}
  {
  }

  lemma BackupsOfAll(muts: seq<StagedFile>, backups: map<Path, Path>)
    requires backups.Keys <= Targets(muts)
    ensures BackupsOf(muts, |muts|, backups) == backups.Values
  {
    forall v | v in backups.Values ensures v in BackupsOf(muts, |muts|, backups) {
      var p :| p in backups && backups[p] == v;
      assert p in Targets(muts);
      var j :| 0 <= j < |muts| && muts[j].path == p;
    }
  }

  lemma FreshBackup(muts: seq<StagedFile>, i: nat, backups: map<Path, Path>)
    requires UniquePaths(muts) && i < |muts| && muts[i].path in backups
    requires forall p, q | p in backups && q in backups && p != q :: backups[p] != backups[q]
    ensures backups[muts[i].path] !in BackupsOf(muts, i, backups)
  {
  }

  /** In every content the disk held since `before`, the commit could still be taken back by hand,
      or was complete. */
  ghost predicate CrashSafe(s0: Files, muts: seq<StagedFile>, recorded: map<Path, Path>, trace: seq<Files>,
          before: seq<Files>)
    requires WellFormedSet(muts)
  {
    && before <= trace
    && (forall i | |before| <= i < |trace| :: Recoverable(s0, trace[i], recorded) || Installed(s0, trace[i], muts))
  }

  lemma CrashSafeStep(s0: Files, muts: seq<StagedFile>, recorded: map<Path, Path>, trace: seq<Files>,
          before: seq<Files>, s: Files)
    requires WellFormedSet(muts) && CrashSafe(s0, muts, recorded, trace, before) && Installed(s0, s, muts)
    ensures CrashSafe(s0, muts, recorded, trace + [s], before)
  {
    forall i | |before| <= i < |trace| ensures Recoverable(s0, trace[i], recorded) || Installed(s0, trace[i], muts) {
    }
  }

  /** Drops one original that is no longer needed. */
  method DropBackup(fs: FileSystem, b: Path, muts: seq<StagedFile>, ghost s0: Files, ghost recorded: map<Path, Path>,
          ghost before: seq<Files>)
    returns (ok: bool)
    requires fs.Valid() && WellFormedSet(muts) && Installed(s0, fs.files, muts)
    requires CrashSafe(s0, muts, recorded, fs.trace, before)
    requires b !in s0 && b !in News(muts)
    modifies fs
    ensures fs.Valid() && fs.dirs == old(fs.dirs) && fs.dirFaults == old(fs.dirFaults)
    ensures Installed(s0, fs.files, muts) && CrashSafe(s0, muts, recorded, fs.trace, before)
    ensures ok ==> fs.files == old(fs.files) - {b} && fs.unlinkFaults == old(fs.unlinkFaults)
    ensures !ok ==> fs.files == old(fs.files) && fs.unlinkFaults == old(fs.unlinkFaults) + [b]
    ensures Since(old(fs.Now()), fs.Now())
  {
    hide Installed, Recoverable, CrashSafe;
    ok := fs.Unlink(b);
    if ok { InstalledWithout(s0, old(fs.files), muts, {b}); }
    CrashSafeStep(s0, muts, recorded, old(fs.trace), before, fs.files);
  }

  /** Drops the originals once the whole set is installed. One that cannot be dropped is left. */
  method DropBackups(fs: FileSystem, muts: seq<StagedFile>, backups: map<Path, Path>, ghost s0: Files,
          ghost before: seq<Files>)
    requires fs.Valid() && WellFormedSet(muts) && UniquePaths(muts) && Installed(s0, fs.files, muts)
             && backups.Values <= fs.files.Keys
    requires CrashSafe(s0, muts, backups, fs.trace, before)
    requires backups.Values !! s0.Keys && backups.Values !! News(muts).Keys
    requires forall p, q | p in backups && q in backups && p != q :: backups[p] != backups[q]
    modifies fs
    ensures fs.Valid() && fs.dirs == old(fs.dirs) && fs.dirFaults == old(fs.dirFaults)
    ensures old(fs.unlinkFaults) <= fs.unlinkFaults
    ensures var kept := Elements(fs.unlinkFaults[|old(fs.unlinkFaults)|..]);
            kept <= backups.Values && kept <= fs.files.Keys
            && fs.files - kept == old(fs.files) - BackupsOf(muts, |muts|, backups)
    ensures CrashSafe(s0, muts, backups, fs.trace, before)
    ensures Since(old(fs.Now()), fs.Now())
  {
    hide Installed, News, CrashSafe, UniquePaths, WellFormedSet, BackupsOf, Disk.Valid;
    ghost var f := |fs.unlinkFaults|;
    BackupsOfNone(muts, backups);
    ghost var dropped: set<Path> := {};
    ghost var kept: set<Path> := {};
    assert Elements(fs.unlinkFaults[f..]) == {};
    var i := 0;
    while i < |muts|
      invariant 0 <= i <= |muts| && fs.Valid() && fs.dirs == old(fs.dirs) && fs.dirFaults == old(fs.dirFaults)
      invariant Since(old(fs.Now()), fs.Now())
      invariant old(fs.unlinkFaults) <= fs.unlinkFaults && kept == Elements(fs.unlinkFaults[f..])
      invariant fs.files == old(fs.files) - dropped && dropped <= backups.Values
      invariant kept + dropped == BackupsOf(muts, i, backups) && kept <= backups.Values && kept <= fs.files.Keys
      invariant Installed(s0, fs.files, muts) && CrashSafe(s0, muts, backups, fs.trace, before)
    {
      var p := muts[i].path;
      BackupsOfStep(muts, i, backups);
      if p in backups {
        ghost var faults := fs.unlinkFaults;
        assert backups[p] in backups.Values;
        FreshBackup(muts, i, backups);
        var ok := DropBackup(fs, backups[p], muts, s0, backups, before);
        if ok {
          MinusMinus(old(fs.files), dropped, {backups[p]});
          dropped := dropped + {backups[p]};
        } else {
          kept := kept + {backups[p]};
          assert fs.unlinkFaults[f..] == faults[f..] + [backups[p]];
        }
      }
      i := i + 1;
    }
    MinusMinus(old(fs.files), dropped, kept);
    assert dropped + kept == kept + dropped;
  }

  lemma MinusMinus(m: Files, a: set<Path>, b: set<Path>)
    ensures (m - a) - b == m - (a + b)
  {
  }

  lemma LayoutStart(s0: Files, news: map<Path, File>, avoid: set<Path>)
    requires news.Keys <= avoid
    ensures Layout(s0, s0, news, avoid, Txn(map[], map[], map[], {}))
  {
  }

  /** Nothing prepared, nothing moved aside, nothing installed: the disk is as it was, but for litter. */
  lemma LayoutUndone(s0: Files, s: Files, news: map<Path, File>, avoid: set<Path>, t: Txn)
    requires Layout(s0, s, news, avoid, t)
    requires t.temps == map[] && t.backups == map[] && t.installed == {}
    ensures s - t.Litters() == s0 && t.Litters() !! s0.Keys && t.Litters() <= s.Keys && t.Litters() !! avoid
  {
  }

  /** The backups and the litter are told apart from each other, from the originals and from the targets. */
  lemma LayoutScratchApart(s0: Files, s: Files, news: map<Path, File>, avoid: set<Path>, t: Txn)
    requires Layout(s0, s, news, avoid, t)
    ensures t.backups.Values !! s0.Keys && t.backups.Values !! news.Keys && t.backups.Values !! avoid
    ensures forall p, q | p in t.backups && q in t.backups && p != q :: t.backups[p] != t.backups[q]
    ensures t.Litters() !! s0.Keys && t.Litters() <= s.Keys && t.Litters() !! avoid && t.Litters() !! t.backups.Values
  {
  }

  lemma LayoutDone(s0: Files, s: Files, muts: seq<StagedFile>, news: map<Path, File>, avoid: set<Path>, t: Txn)
    requires WellFormedSet(muts) && news == News(muts) && Targets(muts) <= avoid
    requires Layout(s0, s, news, avoid, t)
    requires t.temps == map[] && t.installed == news.Keys && t.backups.Keys == s0.Keys * Targets(muts)
    requires news.Keys <= Targets(muts)
    ensures Installed(s0, s, muts)
    ensures (s - t.backups.Values) - t.Litters() == (s0 - Targets(muts)) + news
  {
    hide News, WellFormedSet;
    LayoutResult(s0, s, Targets(muts), news, avoid, t);
  }

  lemma LayoutResult(s0: Files, s: Files, targets: set<Path>, news: map<Path, File>, avoid: set<Path>, t: Txn)
    requires Layout(s0, s, news, avoid, t) && targets <= avoid
    requires t.temps == map[] && t.installed == news.Keys && t.backups.Keys == s0.Keys * targets && news.Keys <= targets
    ensures forall p | p in news :: p in s && s[p] == news[p]
    ensures forall p | p in s && p in targets :: p in news
    ensures forall p | p in s0 && p !in targets :: p in s && s[p] == s0[p]
    ensures (s - t.backups.Values) - t.Litters() == (s0 - targets) + news
  {
    LayoutScratchApart(s0, s, news, avoid, t);
    var u, w := (s - t.backups.Values) - t.Litters(), (s0 - targets) + news;
    forall p | p in u ensures p in w && u[p] == w[p] {
      assert p !in t.role;
    }
    assert forall p | p in w :: p in u;
  }

  lemma NotDirectories(d: Disk, changes: seq<StagedFile>)
    requires d.Valid() && forall c | c in changes :: Matches(c.baseline, c.path, d.files, d.dirs)
    ensures forall c | c in changes :: c.path !in d.dirs
  {
  }

  /** The phases after the preparation: recheck everything, move the originals aside, install. */
  method Switch(fs: FileSystem, changes: seq<StagedFile>, muts: seq<StagedFile>, prepared: map<Path, Path>,
          avoid: set<Path>, ghost x: Start, ghost t: Txn)
    returns (failure: Option<Cause>, backups: map<Path, Path>, installed: set<Path>, ghost t': Txn)
    requires Installing(x, fs.Now(), prepared, map[], {}, t) && avoid == x.avoid && x.d0 <= fs.dirs
    requires Planned(x, muts) && prepared.Keys == x.news.Keys <= Targets(muts) && Targets(changes) <= x.avoid
    modifies fs
    ensures Installing(x, fs.Now(), prepared, backups, installed, t')
    ensures fs.dirs == old(fs.dirs) && fs.dirFaults == old(fs.dirFaults)
    ensures backups.Keys <= Targets(muts) && installed <= prepared.Keys
    ensures failure.None? ==> installed == x.news.Keys && backups.Keys == x.s0.Keys * Targets(muts)
    ensures failure.None? ==> forall c | c in changes :: c.path !in fs.dirs && Matches(c.baseline, c.path, x.s0, x.d0)
    ensures Since(old(fs.Now()), fs.Now())
    ensures failure.Some? && fs.raised == old(fs.raised) ==> !Ready(x, fs.dirs, changes) || !Ready(x, fs.dirs, muts)
  {
    backups, installed, t' := map[], {}, t;
    assert t.backups == map[] && t.installed == {} && Underway(x, fs.Now(), t, t.backups);
    assert forall c | c in changes :: c.path in Targets(changes);
    hide Installing, Underway, Planned, Matches, WellFormedSet, UniquePaths, Targets;
    Baselines(x, fs.Now(), changes, t);
    failure := AssertBaselines(fs, changes);
    StillInstalling(x, old(fs.Now()), fs.raised, prepared, map[], {}, t);
    if failure.None? {
      NotDirectories(fs.Now(), changes);
      failure, backups, t' := BackUp(fs, muts, avoid, prepared, x, t);
      if failure.None? {
        failure, installed, t' := InstallAll(fs, muts, prepared, backups, x, t');
      }
    } else if fs.raised == old(fs.raised) {
      ghost var c :| c in changes && !Matches(c.baseline, c.path, fs.files, fs.dirs);
      assert !Matches(c.baseline, c.path, x.s0, fs.dirs);
    }
  }

  /** Nothing stands in the way: every baseline holds, and no file or target lies where a directory
      has to be. */
  ghost predicate Unobstructed(s0: Files, d0: set<Path>, changes: seq<StagedFile>, muts: seq<StagedFile>) {
    && (forall c | c in changes :: Matches(c.baseline, c.path, s0, d0))
    && NothingOnTheWay(s0, changes, muts)
  }

  ghost predicate NothingOnTheWay(s0: Files, changes: seq<StagedFile>, muts: seq<StagedFile>) {
    Prefixes(muts) !! s0.Keys && Prefixes(muts) !! Targets(changes)
  }

  lemma UnobstructedNow(x: Start, dirs: set<Path>, changes: seq<StagedFile>, muts: seq<StagedFile>)
    requires dirs == x.d0 + Prefixes(muts) && x.s0.Keys !! dirs
    requires forall c | c in changes :: c.path !in dirs && Matches(c.baseline, c.path, x.s0, x.d0)
    ensures Unobstructed(x.s0, x.d0, changes, muts)
  {
  }

  lemma UnobstructedReady(x: Start, dirs: set<Path>, changes: seq<StagedFile>, muts: seq<StagedFile>)
    requires Unobstructed(x.s0, x.d0, changes, muts) && x.s0.Keys !! x.d0
    requires x.d0 <= dirs <= x.d0 + Prefixes(muts)
    requires WellFormedSet(changes) && muts == Mutations(changes)
    requires forall c | c in muts :: c.path == [] || Parent(c.path) in dirs
    ensures Ready(x, dirs, changes) && Ready(x, dirs, muts)
  {
    forall c | c in changes
      ensures c.path !in dirs && Matches(c.baseline, c.path, x.s0, dirs)
    {
      assert c.path in Targets(changes);
    }
  }

  lemma PreparedInstalling(x: Start, d: Disk, muts: seq<StagedFile>, created: seq<Path>, prepared: map<Path, Path>,
          t: Txn, stranded: set<Path>)
    requires Preparing(x, d, muts, created, prepared, t, stranded)
    ensures Installing(x, d, prepared, map[], {}, t)
    ensures MadeDirs(x, d.dirs, created, stranded) && d.dirs == x.d0 + Elements(created) + stranded
            && Elements(created) <= Prefixes(muts)
    ensures x.s0.Keys !! d.dirs
  {
    assert prepared - {} == prepared;
  }

  /** The try block: the four phases, and what a raise in any of them leaves for the handler. */
  method Attempt(fs: FileSystem, changes: seq<StagedFile>, muts: seq<StagedFile>, avoid: set<Path>, ghost x: Start)
    returns (failure: Option<Cause>, created: seq<Path>, prepared: map<Path, Path>, backups: map<Path, Path>,
            installed: set<Path>, ghost t: Txn, ghost stranded: set<Path>)
    requires Preparing(x, fs.Now(), muts, [], map[], Txn(map[], map[], map[], {}), {}) && avoid == x.avoid
    requires fs.dirs == x.d0 && fs.dirFaults == x.dirFaults
    requires Planned(x, muts) && x.news.Keys <= Targets(muts)
    requires Targets(changes) <= x.avoid && Prefixes(muts) <= x.avoid && x.s0.Keys !! x.d0 && muts == Mutations(changes)
             && WellFormedSet(changes)
    modifies fs
    ensures Attempted(x, fs.Now(), muts, created, prepared, backups, installed, t, stranded)
    ensures Since(old(fs.Now()), fs.Now())
    ensures failure.None? ==> stranded == {} && installed == x.news.Keys && backups.Keys == x.s0.Keys * Targets(muts)
    ensures failure.None? ==> fs.dirs == x.d0 + Prefixes(muts) && fs.dirFaults == x.dirFaults
    ensures failure.None? ==> Unobstructed(x.s0, x.d0, changes, muts)
    ensures failure.None? ==> forall c | c in changes :: Matches(c.baseline, c.path, x.s0, x.d0)
    ensures failure.Some? && fs.raised == old(fs.raised) ==> !Unobstructed(x.s0, x.d0, changes, muts)
  {
    hide Preparing, Installing, MadeDirs, Planned, UniquePaths, WellFormedSet, Matches, Ready, Blamed, Prefixes;
    t := Txn(map[], map[], map[], {});
    var ok;
    ok, created, prepared, t, stranded := Prepare(fs, muts, avoid, x, t);
    PreparedInstalling(x, fs.Now(), muts, created, prepared, t, stranded);
    failure, backups, installed := Some(Io), map[], {};
    if ok {
      if Unobstructed(x.s0, x.d0, changes, muts) { UnobstructedReady(x, fs.dirs, changes, muts); }
      failure, backups, installed, t := Switch(fs, changes, muts, prepared, avoid, x, t);
      if failure.None? { UnobstructedNow(x, fs.dirs, changes, muts); }
    }
  }

  /** Before anything is moved, a baseline that holds now held at the start. */
  lemma Baselines(x: Start, d: Disk, changes: seq<StagedFile>, t: Txn)
    requires Underway(x, d, t, t.backups) && t.backups == map[] && t.installed == {} && x.d0 <= d.dirs
    requires Targets(changes) <= x.avoid
    ensures forall c | c in changes ::
              Matches(c.baseline, c.path, d.files, d.dirs) <==> Matches(c.baseline, c.path, x.s0, d.dirs)
    ensures forall c | c in changes && Matches(c.baseline, c.path, d.files, d.dirs) ::
              Matches(c.baseline, c.path, x.s0, x.d0)
  {
    forall c | c in changes
      ensures Matches(c.baseline, c.path, d.files, d.dirs) <==> Matches(c.baseline, c.path, x.s0, d.dirs)
    {
      assert c.path in Targets(changes);
      MatchesStart(x, d, t, c);
    }
  }

  /** What a commit that does not go through leaves of its directories, by the faults since it began:
      `stranded` for the mkdir that raised, `stuck` for removals that raised or were blocked. */
  ghost predicate Swept(d0: set<Path>, muts: seq<StagedFile>, dirs: set<Path>, faults: seq<DirFault>,
          refused: set<Path>, stranded: set<Path>, stuck: set<Path>)
  {
    && dirs == d0 + stranded + stuck
    && stranded == StrandedBy(d0, muts, faults) && stranded !! d0
    && stuck <= Prefixes(muts) && stuck !! d0 + stranded
    && (forall i | 0 < i < |faults| :: faults[i].RmdirFault?)
    && (forall f | f in faults && f.RmdirFault? :: f.dir in stuck)
    && (forall q | q in stuck ::
         RmdirFault(q) in faults || exists p: Path :: p != [] && Parent(p) == q && (p in dirs || p in refused))
  }

  /** No mkdir raised half way, no rmdir raised, and no file refused to go from a new directory. */
  ghost predicate NothingLeft(d0: set<Path>, muts: seq<StagedFile>, faults: seq<DirFault>, refused: set<Path>) {
    && StrandedBy(d0, muts, faults) == {}
    && (forall f | f in faults :: f.MkdirFault?)
    && (forall p | p in refused :: p != [] && Parent(p) in d0)
  }

  /** What `commit` promises of the directories: all of them made; or all of those gone again, which after a
      clean rollback holds exactly if nothing was left behind. */
  ghost predicate DirsPromise(outcome: Outcome, d0: set<Path>, muts: seq<StagedFile>, dirs: set<Path>,
          faults: seq<DirFault>, refused: set<Path>, stranded: set<Path>, stuck: set<Path>)
  {
    match outcome
    case Committed =>
      dirs == d0 + Prefixes(muts) && faults == []
    case Failed(_) =>
      && Swept(d0, muts, dirs, faults, refused, stranded, stuck)
      && (dirs == d0 <==> NothingLeft(d0, muts, faults, refused))
    case RollbackFailed(_) =>
      && Swept(d0, muts, dirs, faults, refused, stranded, stuck)
      && (NothingLeft(d0, muts, faults, refused) ==> dirs == d0)
  }

  lemma BlamedFaults(x: Start, muts: seq<StagedFile>, mid: seq<DirFault>, stranded: set<Path>)
    requires Blamed(x, muts, mid, stranded)
    ensures x.dirFaults <= mid && |mid| <= |x.dirFaults| + 1
    ensures forall f | f in mid[|x.dirFaults|..] :: f.MkdirFault?
    ensures stranded == StrandedBy(x.d0, muts, mid[|x.dirFaults|..])
  {
    hide Stranded, Prefixes;
  }

  /** The mkdir fault of the preparation, if any, and then the rmdir faults of the rollback. */
  lemma FaultsApart(d0: set<Path>, muts: seq<StagedFile>, made: seq<DirFault>, removed: seq<DirFault>,
          faults: seq<DirFault>, stuck: set<Path>)
    requires |made| <= 1 && (forall f | f in made :: f.MkdirFault?) && faults == made + removed
    requires forall i | 0 <= i < |removed| :: removed[i].RmdirFault? && removed[i].dir in stuck
    ensures StrandedBy(d0, muts, faults) == StrandedBy(d0, muts, made)
    ensures forall i | 0 < i < |faults| :: faults[i].RmdirFault?
    ensures forall f | f in faults && f.RmdirFault? :: f.dir in stuck
    ensures (forall f | f in faults :: f.MkdirFault?) ==> removed == []
  {
    hide Stranded;
    if removed != [] { assert removed[0] in faults; }
  }

  lemma SweptNow(x: Start, muts: seq<StagedFile>, mid: seq<DirFault>, d: Disk, stranded: set<Path>, stuck: set<Path>)
    requires Blamed(x, muts, mid, stranded) && Left(x, mid, d, stuck) && x.faults <= d.unlinkFaults
    requires d.dirs == x.d0 + stranded + stuck && stranded !! x.d0 && stuck <= Prefixes(muts)
             && stuck !! x.d0 + stranded
    ensures x.dirFaults <= d.dirFaults
    ensures var faults, refused := d.dirFaults[|x.dirFaults|..], Elements(d.unlinkFaults[|x.faults|..]);
            && Swept(x.d0, muts, d.dirs, faults, refused, stranded, stuck)
            && (NothingLeft(x.d0, muts, faults, refused) ==> stranded == {} && d.dirFaults == mid && NoneAfield(x, d))
            && (d.dirs == x.d0 && d.Valid() && refused <= d.files.Keys ==> NothingLeft(x.d0, muts, faults, refused))
  {
    hide StrandedBy, Prefixes, RefusedSince, Blamed, Elements;
    BlamedFaults(x, muts, mid, stranded);
    var made, removed, faults := mid[|x.dirFaults|..], d.dirFaults[|mid|..], d.dirFaults[|x.dirFaults|..];
    assert faults == made + removed;
    FaultsApart(x.d0, muts, made, removed, faults, stuck);
    assert removed == [] ==> d.dirFaults == mid;
    RefusedElements(x, d);
    assert d.dirs == x.d0 ==> stranded == {} && stuck == {};
    forall q | q in stuck && Blocked(x, d, q)
      ensures exists p: Path ::
                p != [] && Parent(p) == q && (p in d.dirs || p in Elements(d.unlinkFaults[|x.faults|..]))
    {
      var p: Path :| p != [] && Parent(p) == q && (p in d.dirs || RefusedSince(x, d, p));
    }
  }

  /** The files are those the set was prepared for. */
  ghost predicate AsPrepared(changes: seq<StagedFile>, s0: Files, d0: set<Path>) {
    forall c | c in changes ::
      match c.baseline
      case Absent => c.path !in s0 && c.path !in d0
      case Present(data, mode) => c.path in s0 && s0[c.path].data == data && s0[c.path].mode == mode
  }

  lemma AsPreparedIff(changes: seq<StagedFile>, s0: Files, d0: set<Path>)
    ensures AsPrepared(changes, s0, d0) <==> forall c | c in changes :: Matches(c.baseline, c.path, s0, d0)
  {
  }

  lemma UnobstructedIff(s0: Files, d0: set<Path>, changes: seq<StagedFile>, muts: seq<StagedFile>)
    ensures Unobstructed(s0, d0, changes, muts) <==> AsPrepared(changes, s0, d0) && NothingOnTheWay(s0, changes, muts)
  {
    AsPreparedIff(changes, s0, d0);
  }

  /** No update is lost: if the baselines were taken on one disk and the set was committed on another, both
      held the same file at every path of the set. */
  lemma PreparedThere(changes: seq<StagedFile>, s1: Files, s2: Files, d2: set<Path>)
    requires forall c | c in changes :: c.baseline == Capture(c.path, s1)
    ensures AsPrepared(changes, s2, d2) <==>
              forall c | c in changes ::
                if c.path in s1 then c.path in s2 && s2[c.path] == s1[c.path] else c.path !in s2 && c.path !in d2
  {
    AsPreparedIff(changes, s2, d2);
    forall c | c in changes {
      CapturedMatchesIff(c.path, s1, s2, d2);
    }
  }

  /** What `commit` promises its caller, whichever of its steps raise. */
  ghost predicate Promise(outcome: Outcome, s0: Files, d0: set<Path>, changes: seq<StagedFile>, s: Files,
          refused: set<Path>)
    requires WellFormedSet(changes)
  {
    match outcome
    case Committed =>
      && (forall c | c in changes :: Matches(c.baseline, c.path, s0, d0))
      && s - refused == After(s0, changes)
      && refused <= s.Keys && refused !! s0.Keys && refused !! Targets(changes)
    case Failed(_) =>
      && s - refused == s0
      && refused <= s.Keys && refused !! s0.Keys && refused !! Targets(changes)
    case RollbackFailed(recovery) =>
      Recoverable(s0, s, recovery)
  }

  ghost function StartOf(d: Disk, changes: seq<StagedFile>): Start
    requires WellFormedSet(changes)
  {
    Start(d.files, d.dirs, News(Mutations(changes)), Targets(changes) + Prefixes(changes), d.trace, d.unlinkFaults,
      d.dirFaults)
  }

  lemma BeginPlanned(d: Disk, changes: seq<StagedFile>)
    requires WellFormedSet(changes) && UniquePaths(changes)
    ensures var x := StartOf(d, changes);
            && Planned(x, Mutations(changes))
            && x.news.Keys <= Targets(Mutations(changes)) <= Targets(changes) <= x.avoid
            && Prefixes(Mutations(changes)) <= x.avoid
  {
    MutationsUnique(changes);
    NewsOf(Mutations(changes));
    var x := StartOf(d, changes);
    forall p | p in x.news ensures p in Targets(Mutations(changes)) {
    }
  }

  lemma BeginPreparing(d: Disk, changes: seq<StagedFile>)
    requires d.Valid() && WellFormedSet(changes) && UniquePaths(changes)
    ensures Preparing(StartOf(d, changes), d, Mutations(changes), [], map[], Txn(map[], map[], map[], {}), {})
  {
    hide News, Mutations, WellFormedSet, UniquePaths, Layout, Targets, Prefixes;
    var x := StartOf(d, changes);
    BeginPlanned(d, changes);
    LayoutStart(x.s0, x.news, x.avoid);
    assert Txn(map[], map[], map[], {}).Litters() == {} == Elements(d.unlinkFaults[|x.faults|..]);
  }

  /** After a rollback without errors the promise for a failure holds. */
  lemma KeepFailed(x: Start, d: Disk, changes: seq<StagedFile>, t: Txn, backups: map<Path, Path>, cause: Cause)
    requires Underway(x, d, t, backups) && Accounted(x, d, t) && WellFormedSet(changes) && Targets(changes) <= x.avoid
    requires t.temps == map[] && t.backups == map[] && t.installed == {}
    ensures Promise(Failed(cause), x.s0, x.d0, changes, d.files, Elements(d.unlinkFaults[|x.faults|..]))
    ensures d.Valid() && Elements(d.unlinkFaults[|x.faults|..]) <= d.files.Keys
  {
    LayoutUndone(x.s0, d.files, x.news, x.avoid, t);
  }

  lemma KeptCrashSafe(x: Start, d: Disk, muts: seq<StagedFile>, t: Txn, recorded: map<Path, Path>)
    requires Underway(x, d, t, recorded) && WellFormedSet(muts)
    ensures CrashSafe(x.s0, muts, recorded, d.trace, x.before)
    ensures d.Valid() && x.faults <= d.unlinkFaults
  {
  }

  /** After a rollback with errors the backups still on disk are enough to recover by hand. */
  lemma KeepRollbackFailed(x: Start, d: Disk, changes: seq<StagedFile>, t: Txn, backups: map<Path, Path>,
          recovery: map<Path, Path>, refused: set<Path>)
    requires Underway(x, d, t, backups) && Remembers(recovery, t) && WellFormedSet(changes)
    ensures Promise(RollbackFailed(recovery), x.s0, x.d0, changes, d.files, refused)
  {
    LayoutRecoverable(x.s0, d.files, x.news, x.avoid, t, recovery);
  }

  /** Either way the tidying up takes nothing of the promise away. */
  lemma KeepPromise(x: Start, d: Disk, changes: seq<StagedFile>, t: Txn, t': Txn, backups: map<Path, Path>,
          recovery: map<Path, Path>, outcome: Outcome)
    requires Underway(x, d, t', backups) && WellFormedSet(changes) && Targets(changes) <= x.avoid
    requires Remembers(recovery, t) && t'.backups == t.backups && x.faults <= d.unlinkFaults
    requires outcome.Failed? || outcome == RollbackFailed(recovery)
    requires outcome.Failed? ==> Accounted(x, d, t') && t'.temps == map[] && t'.backups == map[] && t'.installed == {}
    ensures Promise(outcome, x.s0, x.d0, changes, d.files, Elements(d.unlinkFaults[|x.faults|..]))
    ensures outcome.Failed? ==> Elements(d.unlinkFaults[|x.faults|..]) <= d.files.Keys
  {
    hide Underway, Remembers, Promise, Accounted, Elements, WellFormedSet, Targets;
    if outcome.Failed? {
      KeepFailed(x, d, changes, t', backups, outcome.cause);
    } else {
      RemembersSame(recovery, t, t');
      KeepRollbackFailed(x, d, changes, t', backups, recovery, Elements(d.unlinkFaults[|x.faults|..]));
    }
  }

  lemma BackupsExist(x: Start, d: Disk, t: Txn, backups: map<Path, Path>)
    requires Underway(x, d, t, backups) && Remembers(backups, t)
    ensures forall p | p in t.backups :: p in backups && backups[p] == t.backups[p] && backups[p] in d.files
  {
  }

  lemma RemembersAll(recorded: map<Path, Path>, t: Txn)
    requires forall p | p in t.backups :: p in recorded && recorded[p] == t.backups[p]
    ensures Remembers(recorded, t)
  {
  }

  /** After the rollback the directories stay as they are, and what the promise says of them holds. */
  lemma KeepDirs(x: Start, muts: seq<StagedFile>, mid: seq<DirFault>, swept: Disk, d: Disk, outcome: Outcome,
          stranded: set<Path>, stuck: set<Path>)
    requires Blamed(x, muts, mid, stranded) && Left(x, mid, swept, stuck) && !outcome.Committed?
    requires d.dirs == swept.dirs && d.dirFaults == swept.dirFaults && swept.unlinkFaults <= d.unlinkFaults
             && x.faults <= d.unlinkFaults
    requires d.dirs == x.d0 + stranded + stuck && stranded !! x.d0 && stuck <= Prefixes(muts)
             && stuck !! x.d0 + stranded
    requires stranded == {} && NoneAfield(x, swept) && swept.dirFaults == mid ==> stuck == {}
    requires outcome.Failed? ==> d.Valid() && Elements(d.unlinkFaults[|x.faults|..]) <= d.files.Keys
    ensures x.dirFaults <= d.dirFaults
    ensures DirsPromise(outcome, x.d0, muts, d.dirs, d.dirFaults[|x.dirFaults|..],
              Elements(d.unlinkFaults[|x.faults|..]), stranded, stuck)
  {
    hide Swept, NothingLeft, Blamed, Left, NoneAfield, Prefixes, Elements;
    LeftStays(x, mid, swept, d, stuck);
    SweptNow(x, muts, mid, d, stranded, stuck);
  }

  lemma AttemptedDirs(x: Start, d: Disk, muts: seq<StagedFile>, created: seq<Path>, prepared: map<Path, Path>,
          backups: map<Path, Path>, installed: set<Path>, t: Txn, stranded: set<Path>)
    requires Attempted(x, d, muts, created, prepared, backups, installed, t, stranded)
    ensures Blamed(x, muts, d.dirFaults, stranded) && stranded !! x.d0 + Elements(created)
    ensures Elements(created) <= Prefixes(muts) && Elements(created) !! x.d0
  {
  }

  /** Once every original is back, no file is left under a backup name. */
  lemma BackupsSpent(x: Start, d: Disk, d': Disk, prepared: map<Path, Path>, backups: map<Path, Path>,
          installed: set<Path>, t: Txn, t': Txn)
    requires Installing(x, d, prepared, backups, installed, t) && Underway(x, d', t', backups)
             && t'.Litters() == t.Litters()
    requires t'.temps == map[] && t'.backups == map[] && t'.installed == {}
    ensures Spent(x, d', backups, t')
  {
    LayoutUndone(x.s0, d'.files, x.news, x.avoid, t');
    forall p | p in backups ensures backups[p] !in d'.files && backups[p] !in x.avoid {
      assert t.role[backups[p]] == Backup(p) && backups[p] !in t.Litters();
    }
  }

  /** The finally block after a raise: the files not installed, and after a clean rollback the backups,
      of which none is there any more. */
  method TidyUp(fs: FileSystem, muts: seq<StagedFile>, prepared: map<Path, Path>, backups: map<Path, Path>, clean: bool,
          ghost x: Start, ghost t: Txn)
    returns (ghost t': Txn)
    requires Underway(x, fs.Now(), t, backups) && Remembers(backups, t) && Spent(x, fs.Now(), prepared, t)
    requires prepared.Keys <= Targets(muts) && backups.Keys <= Targets(muts)
    requires forall p | p in t.temps :: p in prepared && prepared[p] == t.temps[p]
    requires clean ==> t.temps == map[] && Spent(x, fs.Now(), backups, t)
    modifies fs
    ensures Underway(x, fs.Now(), t', backups)
    ensures fs.dirs == old(fs.dirs) && fs.dirFaults == old(fs.dirFaults) && Since(old(fs.Now()), fs.Now())
    ensures t'.backups == t.backups && t'.installed == t.installed && t'.Litters() == t.Litters()
    ensures clean ==> t' == t && fs.files == old(fs.files) && fs.unlinkFaults == old(fs.unlinkFaults)
  {
    hide Underway, Spent, Remembers, Txn.Litters, RefusedSince, Targets;
    var dropped;
    ghost var d := fs.Now();
    dropped, t' := DropTemps(fs, muts, prepared, x, t, backups);
    if clean {
      assert Spent(x, fs.Now(), backups, t') by { StillSpent(x, d, fs.Now(), backups, t); }
      dropped, t' := DropTemps(fs, muts, backups, x, t', backups);
    }
  }

  lemma StillSpent(x: Start, d: Disk, d': Disk, names: map<Path, Path>, t: Txn)
    requires Spent(x, d, names, t) && d'.files == d.files
    ensures Spent(x, d', names, t)
  {
  }

  /** The except and finally blocks after a raise: roll back, then tidy up. */
  method Fail(fs: FileSystem, changes: seq<StagedFile>, muts: seq<StagedFile>, cause: Cause, created: seq<Path>,
          prepared: map<Path, Path>, backups: map<Path, Path>, installed: set<Path>, ghost x: Start, ghost t: Txn,
          ghost stranded: set<Path>)
    returns (outcome: Outcome, ghost stuck: set<Path>)
    requires Attempted(x, fs.Now(), muts, created, prepared, backups, installed, t, stranded) && Planned(x, muts)
             && WellFormedSet(changes)
    requires WellFormedSet(muts)
    requires Targets(changes) <= x.avoid
    requires [] in x.d0 && forall d | d in x.d0 && d != [] :: Parent(d) in x.d0
    requires forall p | p in x.s0 :: p != [] && Parent(p) in x.d0
    modifies fs
    ensures fs.Valid() && x.faults <= fs.unlinkFaults && x.dirFaults <= fs.dirFaults
    ensures outcome.Failed? || outcome.RollbackFailed?
    ensures outcome.Failed? ==> outcome.cause == cause
    ensures Promise(outcome, x.s0, x.d0, changes, fs.files, Elements(fs.unlinkFaults[|x.faults|..]))
    ensures DirsPromise(outcome, x.d0, muts, fs.dirs, fs.dirFaults[|x.dirFaults|..],
              Elements(fs.unlinkFaults[|x.faults|..]), stranded, stuck)
    ensures CrashSafe(x.s0, muts, backups, fs.trace, x.before)
    ensures Since(old(fs.Now()), fs.Now())
    ensures outcome.RollbackFailed? && RoomFor(x, old(fs.dirs)) ==> old(fs.raised) < fs.raised
  {
    hide Underway, Planned, Txn.Litters, Spent, Remembers, Promise, DirsPromise, CrashSafe, Ladder, UniquePaths,
      RoomFor, WellFormedSet, Targets, Left, NoneAfield, Blamed, Prefixes, RefusedSince;
    var clean;
    ghost var t', t'';
    AttemptedDirs(x, fs.Now(), muts, created, prepared, backups, installed, t, stranded);
    clean, t', stuck := Rollback(fs, muts, prepared, backups, installed, created, x, t, stranded);
    ghost var swept := fs.Now();
    BackupsExist(x, fs.Now(), t', backups);
    var recovery := map p | p in backups && fs.Exists(backups[p]) :: backups[p];
    assert Remembers(recovery, t') by { RemembersAll(recovery, t'); }
    if clean { BackupsSpent(x, old(fs.Now()), fs.Now(), prepared, backups, installed, t, t'); }
    t'' := TidyUp(fs, muts, prepared, backups, clean, x, t');
    KeptCrashSafe(x, fs.Now(), muts, t'', backups);
    outcome := if clean then Failed(cause) else RollbackFailed(recovery);
    KeepPromise(x, fs.Now(), changes, t', t'', backups, recovery, outcome);
    KeepDirs(x, muts, old(fs.dirFaults), swept, fs.Now(), outcome, stranded, stuck);
  }

  /** With everything installed the disk is as promised, but for the originals. */
  lemma KeepCommitted(x: Start, d: Disk, changes: seq<StagedFile>, muts: seq<StagedFile>, t: Txn,
          prepared: map<Path, Path>, backups: map<Path, Path>, installed: set<Path>)
    requires WellFormedSet(changes) && muts == Mutations(changes) && UniquePaths(changes) && WellFormedSet(muts)
    requires Installing(x, d, prepared, backups, installed, t) && x.news == News(muts) && Targets(muts) <= x.avoid
    requires installed == prepared.Keys == x.news.Keys <= Targets(muts) && backups.Keys == x.s0.Keys * Targets(muts)
    ensures Installed(x.s0, d.files, muts)
    ensures backups.Values !! x.s0.Keys && backups.Values !! News(muts).Keys && backups.Values !! x.avoid
    ensures forall p, q | p in backups && q in backups && p != q :: backups[p] != backups[q]
    ensures (d.files - backups.Values) - t.Litters() == After(x.s0, changes)
    ensures t.Litters() !! x.s0.Keys && t.Litters() <= d.files.Keys && t.Litters() !! x.avoid
            && t.Litters() !! backups.Values
  {
    hide News, Mutations, UniquePaths, Roles, Places;
    assert t.temps == map[];
    LayoutDone(x.s0, d.files, muts, x.news, x.avoid, t);
    LayoutScratchApart(x.s0, d.files, x.news, x.avoid, t);
  }

  lemma CommittedPromise(x: Start, changes: seq<StagedFile>, before: Files, b: set<Path>, l: set<Path>, s: Files,
          kept: set<Path>)
    requires WellFormedSet(changes) && Targets(changes) <= x.avoid
    requires forall c | c in changes :: Matches(c.baseline, c.path, x.s0, x.d0)
    requires (before - b) - l == After(x.s0, changes) && s - kept == before - b && kept <= b && kept <= s.Keys
    requires b !! x.s0.Keys && b !! x.avoid && l !! x.s0.Keys && l <= before.Keys && l !! x.avoid && l !! b
    ensures Promise(Committed, x.s0, x.d0, changes, s, l + kept)
  {
    hide After, Matches;
    MinusMinus(s, kept, l);
    assert l + kept == kept + l;
    assert l <= (before - b).Keys;
  }

  lemma ElementsAppend(faults: seq<Path>, from: nat, mid: nat)
    requires from <= mid <= |faults|
    ensures Elements(faults[from..mid]) + Elements(faults[mid..]) == Elements(faults[from..])
  {
    assert faults[from..] == faults[from..mid] + faults[mid..];
  }

  /** The finally block after a complete installation. */
  method Finish(fs: FileSystem, changes: seq<StagedFile>, muts: seq<StagedFile>, prepared: map<Path, Path>,
          backups: map<Path, Path>, ghost installed: set<Path>, ghost x: Start, ghost t: Txn)
    requires WellFormedSet(changes) && muts == Mutations(changes) && UniquePaths(changes) && WellFormedSet(muts)
             && UniquePaths(muts)
    requires Installing(x, fs.Now(), prepared, backups, installed, t)
    requires x.news == News(muts) && Targets(muts) <= x.avoid && Targets(changes) <= x.avoid
    requires installed == prepared.Keys == x.news.Keys <= Targets(muts) && backups.Keys == x.s0.Keys * Targets(muts)
    requires forall c | c in changes :: Matches(c.baseline, c.path, x.s0, x.d0)
    modifies fs
    ensures fs.Valid() && x.faults <= fs.unlinkFaults && Since(old(fs.Now()), fs.Now())
    ensures fs.dirs == old(fs.dirs) && fs.dirFaults == old(fs.dirFaults)
    ensures Promise(Committed, x.s0, x.d0, changes, fs.files, Elements(fs.unlinkFaults[|x.faults|..]))
    ensures CrashSafe(x.s0, muts, backups, fs.trace, x.before)
  {
    hide Underway, Matches, Promise, CrashSafe, After, Installed, News, WellFormedSet, UniquePaths, Mutations, Targets,
      BackupsOf;
    var ok;
    ghost var t';
    assert t.temps == map[];
    ok, t' := DropTemps(fs, muts, prepared, x, t, backups);
    KeptCrashSafe(x, fs.Now(), muts, t', backups);
    KeepCommitted(x, fs.Now(), changes, muts, t', prepared, backups, installed);
    ghost var mid := fs.Now();
    BackupsExist(x, mid, t', backups);
    DropBackups(fs, muts, backups, x.s0, x.before);
    BackupsOfAll(muts, backups);
    assert fs.unlinkFaults[|x.faults|..|mid.unlinkFaults|] == mid.unlinkFaults[|x.faults|..];
    ElementsAppend(fs.unlinkFaults, |x.faults|, |mid.unlinkFaults|);
    CommittedPromise(x, changes, mid.files, backups.Values, t'.Litters(), fs.files,
      Elements(fs.unlinkFaults[|mid.unlinkFaults|..]));
  }

  /** An attempt leaves room to put every original back. */
  lemma RoomAfter(x: Start, d: Disk, muts: seq<StagedFile>, created: seq<Path>, prepared: map<Path, Path>,
          backups: map<Path, Path>, installed: set<Path>, t: Txn, stranded: set<Path>)
    requires Attempted(x, d, muts, created, prepared, backups, installed, t, stranded)
    requires forall p | p in x.s0 :: p != [] && Parent(p) in x.d0
    ensures RoomFor(x, d.dirs) && x.d0 <= d.dirs
    ensures Installing(x, d, prepared, backups, installed, t) && installed <= prepared.Keys <= x.news.Keys
  {
  }

  lemma StartValid(d: Disk, changes: seq<StagedFile>)
    requires d.Valid() && WellFormedSet(changes)
    ensures var x := StartOf(d, changes);
            && x.s0.Keys !! x.d0 && [] in x.d0 && (forall p | p in x.d0 && p != [] :: Parent(p) in x.d0)
            && (forall p | p in x.s0 :: p != [] && Parent(p) in x.d0)
  {
  }

  method CommitUnique(fs: FileSystem, changes: seq<StagedFile>)
    returns (outcome: Outcome, ghost recorded: map<Path, Path>, ghost stranded: set<Path>, ghost stuck: set<Path>)
    requires fs.Valid() && WellFormedSet(changes) && UniquePaths(changes)
    modifies fs
    ensures fs.Valid() && old(fs.unlinkFaults) <= fs.unlinkFaults && old(fs.dirFaults) <= fs.dirFaults
    ensures var refused, faults := Elements(fs.unlinkFaults[|old(fs.unlinkFaults)|..]),
              fs.dirFaults[|old(fs.dirFaults)|..];
            && Promise(outcome, old(fs.files), old(fs.dirs), changes, fs.files, refused)
            && DirsPromise(outcome, old(fs.dirs), Mutations(changes), fs.dirs, faults, refused, stranded, stuck)
    ensures CrashSafe(old(fs.files), Mutations(changes), recorded, fs.trace, old(fs.trace))
    ensures outcome.Committed? ==> Unobstructed(old(fs.files), old(fs.dirs), changes, Mutations(changes))
    ensures Since(old(fs.Now()), fs.Now())
    ensures fs.raised == old(fs.raised) ==> !outcome.RollbackFailed?
    ensures fs.raised == old(fs.raised) && Unobstructed(old(fs.files), old(fs.dirs), changes, Mutations(changes)) ==>
              outcome.Committed?
  {
    hide Attempted, Preparing, Planned, Promise, Swept, NothingLeft, CrashSafe, UniquePaths, WellFormedSet,
      Unobstructed, RoomFor, Mutations, News, Matches, Disk.Valid, Prefixes, Installing;
    var muts := Mutations(changes);
    var avoid := (set c | c in changes :: c.path) + Prefixes(changes);
    ghost var x := StartOf(fs.Now(), changes);
    BeginPlanned(fs.Now(), changes);
    BeginPreparing(fs.Now(), changes);
    StartValid(fs.Now(), changes);
    var failure, created, prepared, backups, installed;
    ghost var t;
    failure, created, prepared, backups, installed, t, stranded := Attempt(fs, changes, muts, avoid, x);
    recorded, stuck := backups, {};
    RoomAfter(x, fs.Now(), muts, created, prepared, backups, installed, t, stranded);
    match failure {
      case Some(cause) =>
        outcome, stuck := Fail(fs, changes, muts, cause, created, prepared, backups, installed, x, t, stranded);
      case None =>
        outcome := Committed;
        Finish(fs, changes, muts, prepared, backups, installed, x, t);
    }
  }

  /** `commit`: all of the changes or none, whichever steps raise. */
  method Commit(fs: FileSystem, changes: seq<StagedFile>)
    returns (outcome: Outcome, ghost recorded: map<Path, Path>, ghost stranded: set<Path>, ghost stuck: set<Path>)
    requires fs.Valid() && WellFormedSet(changes)
    modifies fs
    ensures fs.Valid() && old(fs.unlinkFaults) <= fs.unlinkFaults && old(fs.dirFaults) <= fs.dirFaults
    ensures var refused, faults := Elements(fs.unlinkFaults[|old(fs.unlinkFaults)|..]),
              fs.dirFaults[|old(fs.dirFaults)|..];
            && Promise(outcome, old(fs.files), old(fs.dirs), changes, fs.files, refused)
            && DirsPromise(outcome, old(fs.dirs), Mutations(changes), fs.dirs, faults, refused, stranded, stuck)
    ensures CrashSafe(old(fs.files), Mutations(changes), recorded, fs.trace, old(fs.trace))
    ensures outcome.Committed? ==> AsPrepared(changes, old(fs.files), old(fs.dirs))
    ensures outcome.Committed? ==>
              UniquePaths(changes) && Unobstructed(old(fs.files), old(fs.dirs), changes, Mutations(changes))
    ensures fs.raised == old(fs.raised) ==>
              (outcome.Committed? <==>
                && UniquePaths(changes) && AsPrepared(changes, old(fs.files), old(fs.dirs))
                && NothingOnTheWay(old(fs.files), changes, Mutations(changes)))
    ensures fs.raised == old(fs.raised) && !outcome.Committed? ==>
              outcome.Failed? && fs.files == old(fs.files) && fs.dirs == old(fs.dirs)
  {
    recorded, stranded, stuck := map[], {}, {};
    AsPreparedIff(changes, fs.files, fs.dirs);
    if changes == [] {
      outcome := Committed;
    } else if exists i, j | 0 <= i < j < |changes| :: changes[i].path == changes[j].path {
      outcome := Failed(Duplicate);
    } else {
      outcome, recorded, stranded, stuck := CommitUnique(fs, changes);
    }
  }
}
