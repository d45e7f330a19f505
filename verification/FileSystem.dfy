/** A file system small enough to reason about: regular files with bytes and mode bits, and
    directories. Every operation that reaches the disk may raise at any time; the `if *` in its
    body is that choice, and every contract holds for both outcomes. */
module FileSystems {
  import opened Options

  /** A resolved path: the component names below the root, each name standing for a number. */
  type Path = seq<nat>

  /** File contents: the UTF-8 encoding of a text, or bytes that no text encodes to. */
  datatype Bytes = Text(text: string) | Raw(octets: seq<bv8>)

  datatype File = File(data: Bytes, mode: nat)

  type Files = map<Path, File>

  /** A mkdir or rmdir that raised, other than over an occupied directory. */
  datatype DirFault = MkdirFault(dir: Path) | RmdirFault(dir: Path)

  datatype RmdirResult = Removed | NotEmpty | Raised

  function Parent(p: Path): Path
    requires p != []
  {
    p[..|p| - 1]
  }

  /** A name that mkstemp can draw always exists: only finitely many are taken. */
  lemma FreshNameBound(parent: Path, taken: set<Path>) returns (bound: nat)
    ensures forall n: nat | bound <= n :: parent + [n] !in taken
  {
    if taken == {} {
      bound := 0;
    } else {
      var p :| p in taken;
      bound := FreshNameBound(parent, taken - {p});
      if p != [] && p[|p| - 1] >= bound {
        bound := p[|p| - 1] + 1;
      }
      forall n: nat | bound <= n ensures parent + [n] !in taken {
        assert (parent + [n])[|parent|] == n;
      }
    }
  }

  /** A file system at one moment: its contents, every content it has held, oldest first and the present
      one last (what a crash could leave behind), the paths whose unlink raised, the directories whose
      mkdir or rmdir raised, and how often anything raised that the contents do not explain. */
  datatype Disk = Disk(files: Files, dirs: set<Path>, trace: seq<Files>, unlinkFaults: seq<Path>,
          dirFaults: seq<DirFault>, raised: nat)
  {
    ghost predicate Valid() {
      && trace != [] && trace[|trace| - 1] == files
      && [] in dirs
      && files.Keys !! dirs
      && (forall p | p in files :: p != [] && Parent(p) in dirs)
      && (forall d | d in dirs && d != [] :: Parent(d) in dirs)
    }
  }

  /** Something lies directly in the directory. */
  ghost predicate Occupied(files: Files, dirs: set<Path>, d: Path) {
    exists p | p in files.Keys + dirs :: p != [] && Parent(p) == d
  }

  /** What holds of any two moments, in that order: each recorded fault is a raise. */
  ghost predicate Since(a: Disk, b: Disk) {
    && a.unlinkFaults <= b.unlinkFaults && a.dirFaults <= b.dirFaults
    && a.raised + |b.unlinkFaults| - |a.unlinkFaults| + |b.dirFaults| - |a.dirFaults| <= b.raised
  }

  lemma SinceThen(a: Disk, b: Disk, c: Disk)
    ensures Since(a, b) && Since(b, c) ==> Since(a, c)
    ensures a == b ==> Since(a, b)
  {
  }

  class FileSystem {
    var files: Files
    var dirs: set<Path>
    ghost var trace: seq<Files>
    ghost var unlinkFaults: seq<Path>
    ghost var dirFaults: seq<DirFault>
    ghost var raised: nat

    ghost function Now(): Disk
      reads this
    {
      Disk(files, dirs, trace, unlinkFaults, dirFaults, raised)
    }

    ghost predicate Valid()
      reads this
    {
      Now().Valid()
    }

    predicate Exists(p: Path)
      reads this
    {
      p in files || p in dirs
    }

    /** The bytes and the mode of a file. */
    method Read(p: Path) returns (r: Option<File>)
      requires p in files
      modifies this`raised
      ensures r.Some? ==> r.value == files[p]
      ensures raised == if r.Some? then old(raised) else old(raised) + 1
    {
      if * {
        raised := raised + 1;
        return None;
      }
      r := Some(files[p]);
    }

    /** Creates an empty file under a name that is free and not in `avoid`: the random part of a
        temporary name never spells a path that somebody else is about to use. */
    method Mkstemp(parent: Path, avoid: set<Path>) returns (r: Option<Path>)
      requires Valid()
      modifies this
      ensures Valid() && dirs == old(dirs) && unlinkFaults == old(unlinkFaults) && dirFaults == old(dirFaults)
      ensures r.None? ==> files == old(files) && trace == old(trace) && (raised == old(raised) + 1 || parent !in dirs)
      ensures old(raised) <= raised && (r.Some? ==> raised == old(raised))
      ensures r.Some? ==>
                && parent in dirs && r.value != [] && Parent(r.value) == parent
                && r.value !in old(files) && r.value !in dirs && r.value !in avoid
                && files == old(files)[r.value := File(Text(""), 384)]
                && trace == old(trace) + [files]
    {
      if * {
        raised := raised + 1;
        return None;
      }
      if parent !in dirs { return None; }
      var taken := files.Keys + dirs + avoid;
      ghost var bound := FreshNameBound(parent, taken);
      assert parent + [bound] !in taken;
      var n: nat :| parent + [n] !in taken;
      var p := parent + [n];
      assert Parent(p) == parent;
      files := files[p := File(Text(""), 384)];
      trace := trace + [files];
      r := Some(p);
    }

    /** Writes, flushes and sets the mode. A raise leaves the file with any content at all. */
    method Fill(p: Path, file: File, torn: File) returns (ok: bool)
      requires Valid() && p in files
      modifies this
      ensures Valid() && dirs == old(dirs) && unlinkFaults == old(unlinkFaults) && dirFaults == old(dirFaults)
      ensures files == old(files)[p := if ok then file else torn]
      ensures trace == old(trace) + [files]
      ensures raised == if ok then old(raised) else old(raised) + 1
    {
      ok := *;
      if !ok { raised := raised + 1; }
      files := files[p := if ok then file else torn];
      trace := trace + [files];
    }

    /** unlink(missing_ok=True). */
    method Unlink(p: Path) returns (ok: bool)
      requires Valid()
      modifies this
      ensures Valid() && dirs == old(dirs) && dirFaults == old(dirFaults)
      ensures ok ==> files == old(files) - {p} && unlinkFaults == old(unlinkFaults)
      ensures !ok ==> p in files && files == old(files) && unlinkFaults == old(unlinkFaults) + [p]
      ensures raised == if ok then old(raised) else old(raised) + 1
      ensures trace == old(trace) + [files]
    {
      ok := true;
      if p in files {
        ok := *;
        if ok { files := files - {p}; } else { unlinkFaults, raised := unlinkFaults + [p], raised + 1; }
      }
      trace := trace + [files];
    }

    /** os.replace: atomic, and refused for a missing source, a directory target or a missing parent. */
    method Replace(src: Path, dst: Path) returns (ok: bool)
      requires Valid() && dst != [] && src != dst
      modifies this
      ensures Valid() && dirs == old(dirs) && unlinkFaults == old(unlinkFaults) && dirFaults == old(dirFaults)
      ensures ok ==> src in old(files) && files == (old(files) - {src})[dst := old(files)[src]]
      ensures !ok ==>
                && files == old(files)
                && (raised == old(raised) + 1 || src !in files || dst in dirs || Parent(dst) !in dirs)
      ensures trace == old(trace) + [files]
      ensures old(raised) <= raised && (ok ==> raised == old(raised))
    {
      ok := *;
      if !ok { raised := raised + 1; }
      ok := ok && src in files && dst !in dirs && Parent(dst) in dirs;
      if ok { files := (files - {src})[dst := files[src]]; }
      trace := trace + [files];
    }

    /** mkdir, refused where something stands already or the parent is not a directory. */
    method Mkdir(d: Path) returns (ok: bool)
      requires Valid()
      modifies this`dirs, this`dirFaults, this`raised
      ensures Valid() && dirs == old(dirs) + if ok then {d} else {}
      ensures raised == old(raised) || raised == old(raised) + 1
      ensures dirFaults == old(dirFaults) + if raised == old(raised) then [] else [MkdirFault(d)]
      ensures ok ==> raised == old(raised)
      ensures ok || raised != old(raised) <==> d != [] && d !in files && d !in old(dirs) && Parent(d) in old(dirs)
    {
      if d == [] || Exists(d) || Parent(d) !in dirs { return false; }
      if * {
        dirFaults, raised := dirFaults + [MkdirFault(d)], raised + 1;
        return false;
      }
      dirs := dirs + {d};
      ok := true;
    }

    method Rmdir(d: Path) returns (r: RmdirResult)
      requires Valid() && d != [] && d in dirs
      modifies this`dirs, this`dirFaults, this`raised
      ensures Valid()
      ensures r.Removed? ==> dirs == old(dirs) - {d}
      ensures !r.Removed? ==> dirs == old(dirs)
      ensures r.NotEmpty? ==> Occupied(files, dirs, d)
      ensures dirFaults == old(dirFaults) + if r.Raised? then [RmdirFault(d)] else []
      ensures raised == if r.Raised? then old(raised) + 1 else old(raised)
    {
      if * {
        dirFaults, raised := dirFaults + [RmdirFault(d)], raised + 1;
        return Raised;
      }
      if exists p | p in files.Keys :: p != [] && Parent(p) == d { return NotEmpty; }
      if exists p | p in dirs :: p != [] && Parent(p) == d { return NotEmpty; }
      dirs := dirs - {d};
      r := Removed;
    }
  }
}
