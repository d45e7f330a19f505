/** apply_patch: the operations of one patch are staged against a snapshot, one entry a path, and the
    entries are committed together. What that must mean is running the operations one by one. */
module Staging {
  import opened Options
  import opened FileSystems
  import opened Commits
  import opened Spans
  import H = Hunks
  import M = Matching
  import T = Texts

  datatype PatchOp =
    | AddFile(path: Path, content: string)
    | DeleteFile(path: Path)
    | UpdateFile(path: Path, hunks: seq<H.PatchHunk>, moveTo: Option<Path>)

  datatype PatchError =
    | NoFilesModified
    | RepeatedPath(path: Path)
    | NotFound(path: Path)
    | IsDirectory(path: Path)
    | DeletedFile(path: Path)
    | NotUtf8(path: Path)
    | HunksRefused(path: Path, reason: M.Failure)

  /** A patch that changed nothing because it was refused or a file could not be read, or whose commit did
      not go through. */
  datatype PatchFailure = Refused(reason: PatchError) | Unread | NotCommitted(outcome: Outcome)

  /** The digest of a text; two texts never share one. */
  datatype Revision = Digest(text: string)

  datatype Change = Added | Deleted | Updated | Unchanged | Moved

  /** What is reported of one path. */
  datatype Evidence = Evidence(change: Change, oldPath: Option<Path>, revision: Option<Revision>,
          quality: Option<Grade>, total: nat)

  /** The staged entries in the order their paths were first staged, and the evidence for each. */
  datatype Stage = Stage(order: seq<Path>, staged: map<Path, StagedFile>, affected: map<Path, Evidence>)
  {
    function Prior(p: Path): Option<StagedFile> {
      if p in staged then Some(staged[p]) else None
    }

    function With(f: StagedFile, e: Evidence): Stage {
      Stage(if f.path in staged then order else order + [f.path], staged[f.path := f], affected[f.path := e])
    }
  }

  function ModeOf(b: Baseline): Option<nat> {
    match b case Absent => None case Present(_, mode) => Some(mode)
  }

  /** FileBaseline.text. */
  function TextOf(b: Baseline, p: Path): Result<string, PatchError> {
    match b
    case Absent => Ok("")
    case Present(Text(text), _) => Ok(text)
    case Present(Raw(_), _) => Err(NotUtf8(p))
  }

  /** The first snapshot of a path: of the disk, or the one an earlier operation took. */
  function BaselineOf(s0: Files, d0: set<Path>, st: Stage, p: Path): Result<Baseline, PatchError> {
    match st.Prior(p)
    case Some(prior) => Ok(prior.baseline)
    case None => if p in d0 then Err(IsDirectory(p)) else Ok(Capture(p, s0))
  }

  function StageAdd(s0: Files, d0: set<Path>, st: Stage, p: Path, content: string): Result<Stage, PatchError> {
    match BaselineOf(s0, d0, st, p)
    case Err(e) => Err(e)
    case Ok(baseline) =>
      match TextOf(baseline, p)
      case Err(e) => Err(e)
      case Ok(_) =>
        var mode := if st.Prior(p).Some? then st.Prior(p).value.mode else ModeOf(baseline);
        Ok(st.With(StagedFile(p, Some(content), baseline, mode, Write),
          Evidence(Added, None, Some(Digest(content)), None, T.TotalLines(content))))
  }

  /** The checks that deleting and updating share: the file must be there, on disk or in the stage. */
  function SourceOf(s0: Files, d0: set<Path>, st: Stage, p: Path): Result<Baseline, PatchError> {
    match st.Prior(p)
    case None =>
      if p in d0 then Err(IsDirectory(p)) else if p !in s0 then Err(NotFound(p)) else Ok(Capture(p, s0))
    case Some(prior) =>
      if prior.content == None then Err(DeletedFile(p)) else if p in d0 then Err(IsDirectory(p)) else Ok(prior.baseline)
  }

  function StageDelete(s0: Files, d0: set<Path>, st: Stage, p: Path): Result<Stage, PatchError> {
    match SourceOf(s0, d0, st, p)
    case Err(e) => Err(e)
    case Ok(baseline) =>
      Ok(st.With(StagedFile(p, None, baseline, ModeOf(baseline), Delete), Evidence(Deleted, None, None, None, 0)))
  }

  /** The text an update starts from. */
  function CurrentText(s0: Files, d0: set<Path>, st: Stage, p: Path): Result<string, PatchError> {
    match SourceOf(s0, d0, st, p)
    case Err(e) => Err(e)
    case Ok(baseline) =>
      match st.Prior(p)
      case Some(StagedFile(_, Some(content), _, _, _)) => Ok(content)
      case _ => TextOf(baseline, p)
  }

  function ModeBefore(st: Stage, baseline: Baseline, p: Path): Option<nat> {
    if st.Prior(p).Some? then st.Prior(p).value.mode else ModeOf(baseline)
  }

  function LooserQuality(previous: Option<Grade>, current: Grade): Grade {
    match previous
    case Some(TrailingWs) => if current.Exact? then TrailingWs else current
    case Some(Indent) => Indent
    case _ => current
  }

  function QualityOf(st: Stage, p: Path): Option<Grade> {
    if p in st.affected then st.affected[p].quality else None
  }

  /** Merging match grades keeps the looser one. */
  lemma LooserIsMaximum(previous: Option<Grade>, current: Grade)
    ensures var merged := LooserQuality(previous, current);
            && !M.Stricter(merged, current) && (previous.Some? ==> !M.Stricter(merged, previous.value))
            && (merged == current || previous == Some(merged))
  {
  }

  /** An update that stays where it is. */
  function StageUpdate(st: Stage, p: Path, baseline: Baseline, before: string, updated: string, quality: Grade): Stage {
    var mode := ModeBefore(st, baseline, p);
    var same := updated == before && mode == ModeOf(baseline);
    var evidence := Evidence(
      if same then Unchanged else Updated,
      None,
      Some(Digest(updated)),
      Some(LooserQuality(QualityOf(st, p), quality)),
      T.TotalLines(updated));
    st.With(StagedFile(p, Some(updated), baseline, mode, if same then Verify else Write), evidence)
  }

  /** An update that moves: the source goes, the destination is written in full. */
  function StageMove(s0: Files, d0: set<Path>, st: Stage, p: Path, dest: Path, baseline: Baseline, updated: string,
          quality: Grade): Result<Stage, PatchError>
  {
    var destBaseline := if st.Prior(dest) == None && dest == p then Ok(baseline) else BaselineOf(s0, d0, st, dest);
    match destBaseline
    case Err(e) => Err(e)
    case Ok(over) =>
      match TextOf(over, dest)
      case Err(e) => Err(e)
      case Ok(_) =>
        var mode := ModeBefore(st, baseline, p);
        var left := st.With(StagedFile(p, None, baseline, mode, Delete), Evidence(Deleted, None, None, None, 0));
        Ok(left.With(StagedFile(dest, Some(updated), over, mode, Write),
          Evidence(Moved, Some(p), Some(Digest(updated)), Some(quality), T.TotalLines(updated))))
  }

  /** What one operation does to the stage, `edit` being what its hunks make of the current text. */
  function StageOp(s0: Files, d0: set<Path>, st: Stage, op: PatchOp, edit: Result<H.Outcome, M.Failure>):
    Result<Stage, PatchError>
  {
    match op
    case AddFile(p, content) => StageAdd(s0, d0, st, p, content)
    case DeleteFile(p) => StageDelete(s0, d0, st, p)
    case UpdateFile(p, _, moveTo) =>
      match CurrentText(s0, d0, st, p)
      case Err(e) => Err(e)
      case Ok(_) =>
        match edit
        case Err(f) => Err(HunksRefused(p, f))
        case Ok(o) =>
          var baseline := SourceOf(s0, d0, st, p).value;
          match moveTo
          case Some(dest) => StageMove(s0, d0, st, p, dest, baseline, o.content, o.quality)
          case None =>
            match TextOf(baseline, p)
            case Err(e) => Err(e)
            case Ok(before) => Ok(StageUpdate(st, p, baseline, before, o.content, o.quality))
  }

  ghost function EditFor(s0: Files, d0: set<Path>, st: Stage, op: PatchOp): Result<H.Outcome, M.Failure> {
    if op.UpdateFile? && CurrentText(s0, d0, st, op.path).Ok?
      then H.Edit(CurrentText(s0, d0, st, op.path).value, op.hunks)
    else Err(M.MalformedHunk)
  }

  ghost function StageAll(s0: Files, d0: set<Path>, ops: seq<PatchOp>): Result<Stage, PatchError> {
    if ops == [] then Ok(Stage([], map[], map[]))
    else
      match StageAll(s0, d0, ops[..|ops| - 1])
      case Err(e) => Err(e)
      case Ok(st) => StageOp(s0, d0, st, ops[|ops| - 1], EditFor(s0, d0, st, ops[|ops| - 1]))
  }

  lemma {:induction false} StageAllStops(s0: Files, d0: set<Path>, ops: seq<PatchOp>, i: nat)
    requires i <= |ops| && StageAll(s0, d0, ops[..i]).Err?
    ensures StageAll(s0, d0, ops) == StageAll(s0, d0, ops[..i])
    decreases |ops| - i
  {
    hide StageOp;
    if i == |ops| {
      assert ops[..i] == ops;
    } else {
      assert ops[..i + 1][..i] == ops[..i];
      StageAllStops(s0, d0, ops, i + 1);
    }
  }

  ghost function Primaries(ops: seq<PatchOp>): set<Path> {
    set op | op in ops :: op.path
  }

  predicate UniquePrimaries(ops: seq<PatchOp>) {
    forall i, j | 0 <= i < j < |ops| :: ops[i].path != ops[j].path
  }

  /** FileBaseline.capture: reads the file, unless the stage has a snapshot of it. */
  method Snapshot(fs: FileSystem, st: Stage, p: Path) returns (ok: bool)
    requires fs.Valid()
    modifies fs`raised
    ensures fs.Valid() && fs.raised == if ok then old(fs.raised) else old(fs.raised) + 1
  {
    ok := true;
    if p !in st.staged && p in fs.files {
      var read := fs.Read(p);
      ok := read.Some?;
    }
  }

  /** What the hunks make of the text an update starts from. */
  method EditText(files: Files, dirs: set<Path>, st: Stage, op: PatchOp) returns (edit: Result<H.Outcome, M.Failure>)
    ensures edit == EditFor(files, dirs, st, op)
  {
    hide CurrentText, H.Edit, H.Applied;
    edit := Err(M.MalformedHunk);
    if op.UpdateFile? {
      var text := CurrentText(files, dirs, st, op.path);
      if text.Ok? {
        edit := H.ApplyUpdateHunks(text.value, op.hunks);
        H.AppliedOnce(text.value, op.hunks, edit, H.Edit(text.value, op.hunks));
      }
    }
  }

  /** One operation of the loop; None if a read raised. */
  method StageOne(fs: FileSystem, st: Stage, op: PatchOp) returns (r: Option<Result<Stage, PatchError>>)
    requires fs.Valid()
    modifies fs`raised
    ensures fs.Valid() && fs.raised == if r.Some? then old(fs.raised) else old(fs.raised) + 1
    ensures r.Some? ==> r.value == StageOp(fs.files, fs.dirs, st, op, EditFor(fs.files, fs.dirs, st, op))
  {
    hide StageOp, EditFor;
    var ok := Snapshot(fs, st, op.path);
    if !ok { return None; }
    var edit := EditText(fs.files, fs.dirs, st, op);
    if op.UpdateFile? && op.moveTo.Some? && op.moveTo.value != op.path && edit.Ok? {
      ok := Snapshot(fs, st, op.moveTo.value);
      if !ok { return None; }
    }
    r := Some(StageOp(fs.files, fs.dirs, st, op, edit));
  }

  /** The staging loop of apply_patch; None if a read raised. */
  method StageOps(fs: FileSystem, ops: seq<PatchOp>) returns (r: Option<Result<Stage, PatchError>>)
    requires fs.Valid()
    modifies fs`raised
    ensures fs.Valid() && fs.raised == if r.Some? then old(fs.raised) else old(fs.raised) + 1
    ensures r.Some? ==> r.value == StageAll(fs.files, fs.dirs, ops)
  {
    hide StageOp, EditFor, Disk.Valid;
    var st := Stage([], map[], map[]);
    var i := 0;
    while i < |ops|
      invariant 0 <= i <= |ops| && fs.Valid() && fs.raised == old(fs.raised)
      invariant StageAll(fs.files, fs.dirs, ops[..i]) == Ok(st)
    {
      assert ops[..i + 1][..i] == ops[..i];
      var next := StageOne(fs, st, ops[i]);
      if next.None? { return None; }
      if next.value.Err? {
        StageAllStops(fs.files, fs.dirs, ops, i + 1);
        return next;
      }
      st := next.value.value;
      i := i + 1;
    }
    assert ops[..i] == ops;
    r := Some(Ok(st));
  }

  // What the operations mean one by one, on the contents of files.

  ghost function RunOp(files: Files, d0: set<Path>, op: PatchOp): Option<Files> {
    match op
    case AddFile(p, content) =>
      if p in d0 then None
      else Some(files[p := File(Text(content), if p in files then files[p].mode else DEFAULT_MODE)])
    case DeleteFile(p) =>
      if p in files then Some(files - {p}) else None
    case UpdateFile(p, hunks, moveTo) =>
      if p !in files || files[p].data.Raw? then None
      else
        match H.Edit(files[p].data.text, hunks)
        case Err(_) => None
        case Ok(o) =>
          var file := File(Text(o.content), files[p].mode);
          match moveTo
          case None => Some(files[p := file])
          case Some(dest) => if dest in d0 then None else Some((files - {p})[dest := file])
  }

  ghost function Run(files: Files, d0: set<Path>, ops: seq<PatchOp>): Option<Files> {
    if ops == [] then Some(files)
    else
      match Run(files, d0, ops[..|ops| - 1])
      case None => None
      case Some(now) => RunOp(now, d0, ops[|ops| - 1])
  }

  /** The files once everything staged is in place. */
  ghost function Final(s0: Files, staged: map<Path, StagedFile>): Files {
    map p | p in s0.Keys + staged.Keys && (p in staged ==> staged[p].content.Some?) ::
      if p in staged then staged[p].NewFile() else s0[p]
  }

  /** A path is staged only with the snapshot of it from before the patch; until it is the primary
      path of an operation it can only be there as the destination of a move. */
  ghost predicate Good(s0: Files, d0: set<Path>, p: Path, f: StagedFile, primary: bool) {
    && f.path == p && p !in d0 && f.baseline == Capture(p, s0)
    && (f.content == None ==> f.action.Delete?)
    && (f.content.Some? ==> f.action.Write? || (f.action.Verify? && p in s0 && s0[p] == f.NewFile()))
    && (!primary ==> f.content.Some? && f.mode.Some?)
    && (f.content.Some? && p in s0 ==> s0[p].data.Text?)
  }

  ghost predicate Honest(s0: Files, f: StagedFile, e: Evidence) {
    && e.revision == (match f.content case None => None case Some(text) => Some(Digest(text)))
    && e.total == (match f.content case None => 0 case Some(text) => T.TotalLines(text))
    && (e.change.Deleted? <==> f.content == None)
    && (e.change.Unchanged? <==> f.action.Verify?)
    && (e.change.Updated? ==> f.content.Some? && (f.path in s0 ==> s0[f.path] != f.NewFile()))
  }

  ghost predicate Inv(s0: Files, d0: set<Path>, st: Stage, done: set<Path>) {
    && st.affected.Keys == st.staged.Keys
    && (forall i, j | 0 <= i < j < |st.order| :: st.order[i] != st.order[j])
    && (forall p :: p in st.order <==> p in st.staged)
    && (forall p | p in st.staged ::
         Good(s0, d0, p, st.staged[p], p in done) && Honest(s0, st.staged[p], st.affected[p]))
  }

  lemma WithKeeps(s0: Files, d0: set<Path>, st: Stage, done: set<Path>, more: set<Path>, f: StagedFile, e: Evidence)
    requires Inv(s0, d0, st, done) && done <= more
    requires Good(s0, d0, f.path, f, f.path in more) && Honest(s0, f, e)
    ensures Inv(s0, d0, st.With(f, e), more)
  {
    hide Honest;
    var st' := st.With(f, e);
    assert forall p | p in st.staged :: p in st.order;
    forall p | p in st'.staged
      ensures Good(s0, d0, p, st'.staged[p], p in more) && Honest(s0, st'.staged[p], st'.affected[p])
    {
      if p != f.path {
        assert Good(s0, d0, p, st.staged[p], p in done);
      }
    }
  }

  lemma FinalWith(s0: Files, st: Stage, f: StagedFile, e: Evidence)
    ensures Final(s0, st.With(f, e).staged) ==
            match f.content case None => Final(s0, st.staged) - {f.path}
              case Some(_) => Final(s0, st.staged)[f.path := f.NewFile()]
  {
  }

  /** What the run sees of a path that is about to be the primary path of an operation. */
  lemma Seen(s0: Files, d0: set<Path>, st: Stage, done: set<Path>, p: Path)
    requires Inv(s0, d0, st, done) && p !in done && s0.Keys !! d0
    ensures p in Final(s0, st.staged) <==> p in st.staged || p in s0
    ensures p in st.staged ==>
              var f := st.staged[p];
              f.content.Some? && f.mode.Some? && p !in d0
              && Final(s0, st.staged)[p] == File(Text(f.content.value), f.mode.value)
              && f.baseline == Capture(p, s0) && (p in s0 ==> s0[p].data.Text?)
    ensures p !in st.staged && p in s0 ==> Final(s0, st.staged)[p] == s0[p]
  {
    assert p in st.staged ==> Good(s0, d0, p, st.staged[p], p in done);
  }

  /** No snapshot is ever taken of a directory, and none is taken twice. */
  lemma BaselineSeen(s0: Files, d0: set<Path>, st: Stage, done: set<Path>, p: Path)
    requires Inv(s0, d0, st, done)
    ensures BaselineOf(s0, d0, st, p) == if p in d0 then Err(IsDirectory(p)) else Ok(Capture(p, s0))
  {
    assert p in st.staged ==> Good(s0, d0, p, st.staged[p], p in done);
  }

  /** The one way staging is stricter than running: the original bytes of what it writes over must be text. */
  ghost predicate Decodable(s0: Files, op: PatchOp) {
    var over := match op
      case AddFile(p, _) => Some(p)
      case DeleteFile(_) => None
      case UpdateFile(_, _, moveTo) => moveTo;
    over.Some? && over.value in s0 ==> s0[over.value].data.Text?
  }

  /** Why a path cannot be written over. */
  ghost function WhyNotWritten(s0: Files, d0: set<Path>, p: Path): Option<PatchError> {
    if p in d0 then Some(IsDirectory(p))
    else if p in s0 && s0[p].data.Raw? then Some(NotUtf8(p))
    else None
  }

  /** Why an operation cannot be staged on the files as the ones before it leave them. */
  ghost function WhyNot(s0: Files, d0: set<Path>, now: Files, op: PatchOp): Option<PatchError> {
    if op.AddFile? then WhyNotWritten(s0, d0, op.path)
    else if op.path in d0 then Some(IsDirectory(op.path))
    else if op.path !in now then Some(NotFound(op.path))
    else if op.DeleteFile? then None
    else if now[op.path].data.Raw? then Some(NotUtf8(op.path))
    else
      match H.Edit(now[op.path].data.text, op.hunks)
      case Err(f) => Some(HunksRefused(op.path, f))
      case Ok(_) => if op.moveTo.Some? then WhyNotWritten(s0, d0, op.moveTo.value) else None
  }

  /** What a patch is refused with: the reason of the first operation that has one. */
  ghost function Refusal(s0: Files, d0: set<Path>, ops: seq<PatchOp>): Option<PatchError> {
    if ops == [] then None
    else
      var init := ops[..|ops| - 1];
      if Refusal(s0, d0, init).Some? then Refusal(s0, d0, init)
      else
        match Run(s0, d0, init)
        case None => None
        case Some(now) => WhyNot(s0, d0, now, ops[|ops| - 1])
  }

  /** The paths an operation stages. */
  function TouchedBy(op: PatchOp): set<Path> {
    {op.path} + if op.UpdateFile? && op.moveTo.Some? then {op.moveTo.value} else {}
  }

  ghost function Touched(ops: seq<PatchOp>): set<Path> {
    set op, p | op in ops && p in TouchedBy(op) :: p
  }

  lemma TouchedStep(ops: seq<PatchOp>, op: PatchOp)
    ensures Touched(ops + [op]) == Touched(ops) + TouchedBy(op)
  {
    assert forall o :: o in ops + [op] <==> o in ops || o == op;
  }

  ghost predicate Simulates(s0: Files, d0: set<Path>, st: Stage, done: set<Path>, op: PatchOp,
          r: Result<Stage, PatchError>)
  {
    var ran := RunOp(Final(s0, st.staged), d0, op);
    && (r.Ok? <==> ran.Some? && Decodable(s0, op))
    && (r.Ok? ==> Inv(s0, d0, r.value, done + {op.path}) && ran == Some(Final(s0, r.value.staged)))
    && (r.Ok? ==> r.value.staged.Keys == st.staged.Keys + TouchedBy(op))
    && WhyNot(s0, d0, Final(s0, st.staged), op) == (if r.Ok? then None else Some(r.error))
  }

  lemma AddSimulates(s0: Files, d0: set<Path>, st: Stage, done: set<Path>, p: Path, content: string)
    requires Inv(s0, d0, st, done) && p !in done && s0.Keys !! d0
    ensures Simulates(s0, d0, st, done, AddFile(p, content), StageAdd(s0, d0, st, p, content))
  {
    hide Final, Inv;
    Seen(s0, d0, st, done, p);
    BaselineSeen(s0, d0, st, done, p);
    var r := StageAdd(s0, d0, st, p, content);
    if r.Ok? {
      var mode := if st.Prior(p).Some? then st.Prior(p).value.mode else ModeOf(Capture(p, s0));
      var f := StagedFile(p, Some(content), Capture(p, s0), mode, Write);
      var e := Evidence(Added, None, Some(Digest(content)), None, T.TotalLines(content));
      WithKeeps(s0, d0, st, done, done + {p}, f, e);
      FinalWith(s0, st, f, e);
    }
  }

  lemma DeleteSimulates(s0: Files, d0: set<Path>, st: Stage, done: set<Path>, p: Path)
    requires Inv(s0, d0, st, done) && p !in done && s0.Keys !! d0
    ensures Simulates(s0, d0, st, done, DeleteFile(p), StageDelete(s0, d0, st, p))
  {
    hide Final, Inv;
    Seen(s0, d0, st, done, p);
    var r := StageDelete(s0, d0, st, p);
    if r.Ok? {
      var f := StagedFile(p, None, Capture(p, s0), ModeOf(Capture(p, s0)), Delete);
      var e := Evidence(Deleted, None, None, None, 0);
      WithKeeps(s0, d0, st, done, done + {p}, f, e);
      FinalWith(s0, st, f, e);
    }
  }

  /** The text and mode an update starts from are the ones the run sees. */
  lemma CurrentSeen(s0: Files, d0: set<Path>, st: Stage, done: set<Path>, p: Path)
    requires Inv(s0, d0, st, done) && p !in done && s0.Keys !! d0
    ensures var now := Final(s0, st.staged);
            var text := CurrentText(s0, d0, st, p);
            && (text.Ok? <==> p in now && now[p].data.Text?)
            && (text.Err? ==>
                  text.error == if p in d0 then IsDirectory(p) else if p !in now then NotFound(p) else NotUtf8(p))
            && (text.Ok? ==>
                  && SourceOf(s0, d0, st, p) == Ok(Capture(p, s0)) && p !in d0
                  && text.value == now[p].data.text
                  && ModeBefore(st, Capture(p, s0), p) == Some(now[p].mode))
            && (text.Ok? && p in s0 ==> s0[p].data.Text?)
  {
    hide Final, Inv;
    Seen(s0, d0, st, done, p);
  }

  lemma UpdateSimulates(s0: Files, d0: set<Path>, st: Stage, done: set<Path>, p: Path, o: H.Outcome)
    requires Inv(s0, d0, st, done) && p !in done && s0.Keys !! d0 && CurrentText(s0, d0, st, p).Ok?
    ensures var now := Final(s0, st.staged);
            && TextOf(Capture(p, s0), p).Ok?
            && p in now
            && var st' := StageUpdate(st, p, Capture(p, s0), TextOf(Capture(p, s0), p).value, o.content, o.quality);
            && Inv(s0, d0, st', done + {p}) && st'.staged.Keys == st.staged.Keys + {p}
            && Final(s0, st'.staged) == now[p := File(Text(o.content), now[p].mode)]
  {
    hide Final, Inv, CurrentText, SourceOf;
    CurrentSeen(s0, d0, st, done, p);
    var st' := StageUpdate(st, p, Capture(p, s0), TextOf(Capture(p, s0), p).value, o.content, o.quality);
    var f, e := st'.staged[p], st'.affected[p];
    assert st' == st.With(f, e);
    WithKeeps(s0, d0, st, done, done + {p}, f, e);
    FinalWith(s0, st, f, e);
  }

  lemma MoveSimulates(s0: Files, d0: set<Path>, st: Stage, done: set<Path>, p: Path, dest: Path, o: H.Outcome)
    requires Inv(s0, d0, st, done) && p !in done && s0.Keys !! d0 && CurrentText(s0, d0, st, p).Ok?
    ensures var now := Final(s0, st.staged);
            var r := StageMove(s0, d0, st, p, dest, Capture(p, s0), o.content, o.quality);
            && p in now
            && (r.Ok? <==> dest !in d0 && (dest in s0 ==> s0[dest].data.Text?))
            && WhyNotWritten(s0, d0, dest) == (if r.Ok? then None else Some(r.error))
            && (r.Ok? ==> r.value.staged.Keys == st.staged.Keys + {p, dest})
            && (r.Ok? ==>
                  && Inv(s0, d0, r.value, done + {p})
                  && Final(s0, r.value.staged) == (now - {p})[dest := File(Text(o.content), now[p].mode)])
  {
    hide Final, Inv, CurrentText, SourceOf;
    CurrentSeen(s0, d0, st, done, p);
    BaselineSeen(s0, d0, st, done, dest);
    var r := StageMove(s0, d0, st, p, dest, Capture(p, s0), o.content, o.quality);
    if r.Ok? {
      var mode := ModeBefore(st, Capture(p, s0), p);
      var f := StagedFile(p, None, Capture(p, s0), mode, Delete);
      var e := Evidence(Deleted, None, None, None, 0);
      WithKeeps(s0, d0, st, done, done + {p}, f, e);
      FinalWith(s0, st, f, e);
      var g := StagedFile(dest, Some(o.content), Capture(dest, s0), mode, Write);
      var h := Evidence(Moved, Some(p), Some(Digest(o.content)), Some(o.quality), T.TotalLines(o.content));
      WithKeeps(s0, d0, st.With(f, e), done + {p}, done + {p}, g, h);
      FinalWith(s0, st.With(f, e), g, h);
    }
  }

  /** One operation: staging it and running it go together. */
  lemma OpSimulates(s0: Files, d0: set<Path>, st: Stage, done: set<Path>, op: PatchOp)
    requires Inv(s0, d0, st, done) && op.path !in done && s0.Keys !! d0
    ensures Simulates(s0, d0, st, done, op, StageOp(s0, d0, st, op, EditFor(s0, d0, st, op)))
  {
    hide Simulates, Inv, EditFor, StageAdd, StageDelete;
    match op
    case AddFile(p, content) => AddSimulates(s0, d0, st, done, p, content);
    case DeleteFile(p) => DeleteSimulates(s0, d0, st, done, p);
    case UpdateFile(_, _, _) => UpdateOpSimulates(s0, d0, st, done, op);
  }

  lemma UpdateOpSimulates(s0: Files, d0: set<Path>, st: Stage, done: set<Path>, op: PatchOp)
    requires Inv(s0, d0, st, done) && op.path !in done && s0.Keys !! d0 && op.UpdateFile?
    ensures Simulates(s0, d0, st, done, op, StageOp(s0, d0, st, op, EditFor(s0, d0, st, op)))
  {
    hide Final, Inv, CurrentText, SourceOf, StageMove, StageUpdate, WhyNotWritten, H.Edit;
    CurrentSeen(s0, d0, st, done, op.path);
    var edit := EditFor(s0, d0, st, op);
    if CurrentText(s0, d0, st, op.path).Ok? && edit.Ok? {
      if op.moveTo.Some? {
        MoveSimulates(s0, d0, st, done, op.path, op.moveTo.value, edit.value);
      } else {
        UpdateSimulates(s0, d0, st, done, op.path, edit.value);
      }
    }
  }

  lemma PrimariesOf(ops: seq<PatchOp>, op: PatchOp)
    ensures Primaries(ops + [op]) == Primaries(ops) + {op.path}
  {
    assert forall o :: o in ops + [op] <==> o in ops || o == op;
  }

  /** Staging a patch is running it: with distinct primary paths, staging succeeds exactly if every
      operation can be run in turn and every file written over held text; the staged files are then
      the files that running leaves, each with the snapshot from before the patch. */
  lemma {:induction false} StagingIsRunning(s0: Files, d0: set<Path>, ops: seq<PatchOp>)
    requires UniquePrimaries(ops) && s0.Keys !! d0
    ensures var r := StageAll(s0, d0, ops);
            && (r.Ok? <==> Run(s0, d0, ops).Some? && forall op | op in ops :: Decodable(s0, op))
            && (r.Ok? ==> Inv(s0, d0, r.value, Primaries(ops)) && Run(s0, d0, ops) == Some(Final(s0, r.value.staged)))
            && (r.Ok? ==> r.value.staged.Keys == Touched(ops))
            && Refusal(s0, d0, ops) == (if r.Ok? then None else Some(r.error))
  {
    hide StageOp, RunOp, Decodable, Inv, Final, WhyNot;
    if ops == [] {
      NothingStaged(s0, d0);
    } else {
      var init, op := ops[..|ops| - 1], ops[|ops| - 1];
      assert ops == init + [op];
      StagingIsRunning(s0, d0, init);
      PrimariesOf(init, op);
      TouchedStep(init, op);
      var st := StageAll(s0, d0, init);
      if st.Ok? {
        assert op.path !in Primaries(init);
        OpSimulates(s0, d0, st.value, Primaries(init), op);
      }
      assert forall o :: o in ops <==> o in init || o == op;
    }
  }

  lemma NothingRefused(s0: Files, d0: set<Path>)
    ensures Refusal(s0, d0, []) == None
  {
  }

  lemma NothingStaged(s0: Files, d0: set<Path>)
    ensures Inv(s0, d0, Stage([], map[], map[]), Primaries([])) && Final(s0, map[]) == s0
  {
  }

  // Match grades over a whole patch.

  /** The grades of the edits that the text of a path has come through since it was last written in full:
      before an operation, and after it. */
  ghost function GradesAfter(now: Files, d0: set<Path>, op: PatchOp, p: Path, before: set<Grade>): set<Grade>
    requires RunOp(now, d0, op).Some?
  {
    match op
    case AddFile(q, _) => if p == q then {} else before
    case DeleteFile(q) => if p == q then {} else before
    case UpdateFile(q, hunks, moveTo) =>
      var grade := H.Edit(now[q].data.text, hunks).value.quality;
      match moveTo
      case None => if p == q then before + {grade} else before
      case Some(dest) => if p == dest then {grade} else if p == q then {} else before
  }

  ghost function GradesOf(s0: Files, d0: set<Path>, ops: seq<PatchOp>, p: Path): set<Grade>
    requires Run(s0, d0, ops).Some?
  {
    if ops == [] then {}
    else
      var init := ops[..|ops| - 1];
      GradesAfter(Run(s0, d0, init).value, d0, ops[|ops| - 1], p, GradesOf(s0, d0, init, p))
  }

  /** The loosest of the grades, and none if there are none. */
  ghost predicate LoosestIn(quality: Option<Grade>, grades: set<Grade>) {
    match quality
    case None => grades == {}
    case Some(g) => g in grades && forall other | other in grades :: !M.Stricter(g, other)
  }

  /** What an operation does to the reported grades. */
  lemma QualityAfter(s0: Files, d0: set<Path>, st: Stage, op: PatchOp, edit: Result<H.Outcome, M.Failure>, p: Path)
    requires StageOp(s0, d0, st, op, edit).Ok?
    ensures op.UpdateFile? ==> edit.Ok? && CurrentText(s0, d0, st, op.path).Ok?
    ensures QualityOf(StageOp(s0, d0, st, op, edit).value, p) ==
            if op.UpdateFile? && op.moveTo == Some(p) then Some(edit.value.quality)
            else if p != op.path then QualityOf(st, p)
            else if op.UpdateFile? && op.moveTo.None? then Some(LooserQuality(QualityOf(st, p), edit.value.quality))
            else None
  {
    hide CurrentText, SourceOf, LooserQuality, BaselineOf, TextOf;
  }

  lemma GradeStep(s0: Files, d0: set<Path>, st: Stage, done: set<Path>, op: PatchOp, p: Path, before: set<Grade>)
    requires Inv(s0, d0, st, done) && op.path !in done && s0.Keys !! d0
    requires StageOp(s0, d0, st, op, EditFor(s0, d0, st, op)).Ok? && RunOp(Final(s0, st.staged), d0, op).Some?
    requires LoosestIn(QualityOf(st, p), before)
    ensures LoosestIn(QualityOf(StageOp(s0, d0, st, op, EditFor(s0, d0, st, op)).value, p),
              GradesAfter(Final(s0, st.staged), d0, op, p, before))
  {
    hide Final, Inv, CurrentText, SourceOf, H.Edit, StageOp, QualityOf, LooserQuality;
    QualityAfter(s0, d0, st, op, EditFor(s0, d0, st, op), p);
    if op.UpdateFile? {
      CurrentSeen(s0, d0, st, done, op.path);
      LooserIsMaximum(QualityOf(st, p), EditFor(s0, d0, st, op).value.quality);
    }
  }

  /** The reported grade of every path is the loosest of those edits. */
  lemma {:induction false} GradesReported(s0: Files, d0: set<Path>, ops: seq<PatchOp>, p: Path)
    requires UniquePrimaries(ops) && s0.Keys !! d0 && StageAll(s0, d0, ops).Ok?
    ensures Run(s0, d0, ops).Some?
    ensures LoosestIn(QualityOf(StageAll(s0, d0, ops).value, p), GradesOf(s0, d0, ops, p))
  {
    hide StageOp, RunOp, Decodable, Inv, Final, GradesAfter, LoosestIn;
    StagingIsRunning(s0, d0, ops);
    if ops == [] {
      assert LoosestIn(None, {}) by { NoGrades(); }
    } else {
      var init, op := ops[..|ops| - 1], ops[|ops| - 1];
      GradesReported(s0, d0, init, p);
      StagingIsRunning(s0, d0, init);
      assert op.path !in Primaries(init);
      GradeStep(s0, d0, StageAll(s0, d0, init).value, Primaries(init), op, p, GradesOf(s0, d0, init, p));
    }
  }

  lemma NoGrades()
    ensures LoosestIn(None, {})
  {
  }

  // What the evidence calls the change of a path.

  predicate InPlace(op: PatchOp) {
    op.UpdateFile? && op.moveTo.None?
  }

  /** The last operation that names a path. */
  ghost function LastNaming(ops: seq<PatchOp>, p: Path): Option<PatchOp> {
    if ops == [] then None
    else
      var last := ops[|ops| - 1];
      if p in TouchedBy(last) then Some(last) else LastNaming(ops[..|ops| - 1], p)
  }

  /** The evidence for a path says what that operation did. */
  ghost predicate Labelled(p: Path, op: PatchOp, e: Evidence) {
    match op
    case AddFile(_, _) => e.change.Added? && e.oldPath == None
    case DeleteFile(_) => e.change.Deleted? && e.oldPath == None
    case UpdateFile(q, _, None) => (e.change.Updated? || e.change.Unchanged?) && e.oldPath == None
    case UpdateFile(q, _, Some(dest)) =>
      if p == dest then e.change.Moved? && e.oldPath == Some(q) else e.change.Deleted? && e.oldPath == None
  }

  lemma LabelStep(s0: Files, d0: set<Path>, st: Stage, op: PatchOp, edit: Result<H.Outcome, M.Failure>, p: Path)
    requires StageOp(s0, d0, st, op, edit).Ok?
    ensures var affected := StageOp(s0, d0, st, op, edit).value.affected;
            if p in TouchedBy(op) then p in affected && Labelled(p, op, affected[p])
            else (p in affected <==> p in st.affected) && (p in affected ==> affected[p] == st.affected[p])
  {
    hide CurrentText, SourceOf, LooserQuality, BaselineOf, TextOf;
  }

  /** Every path reported is reported as what the last operation naming it did. */
  lemma {:induction false} LabelsReported(s0: Files, d0: set<Path>, ops: seq<PatchOp>, p: Path)
    requires StageAll(s0, d0, ops).Ok? && p in StageAll(s0, d0, ops).value.affected
    ensures LastNaming(ops, p).Some?
            && Labelled(p, LastNaming(ops, p).value, StageAll(s0, d0, ops).value.affected[p])
  {
    hide StageOp, Labelled;
    var init, op := ops[..|ops| - 1], ops[|ops| - 1];
    LabelStep(s0, d0, StageAll(s0, d0, init).value, op, EditFor(s0, d0, StageAll(s0, d0, init).value, op), p);
    if p !in TouchedBy(op) { LabelsReported(s0, d0, init, p); }
  }

  predicate Listed(st: Stage) {
    forall p | p in st.order :: p in st.staged
  }

  lemma InvListed(s0: Files, d0: set<Path>, st: Stage, done: set<Path>)
    requires Inv(s0, d0, st, done)
    ensures Listed(st)
  {
  }

  /** The entries handed to the committer. */
  function ChangesOf(st: Stage): (r: seq<StagedFile>)
    requires Listed(st)
    ensures |r| == |st.order| && forall i | 0 <= i < |r| :: r[i] == st.staged[st.order[i]]
  {
    seq(|st.order|, i requires 0 <= i < |st.order| => st.staged[st.order[i]])
  }

  lemma ChangesFit(s0: Files, d0: set<Path>, st: Stage, done: set<Path>)
    requires Inv(s0, d0, st, done) && [] in d0
    ensures Listed(st) && WellFormedSet(ChangesOf(st)) && UniquePaths(ChangesOf(st))
    ensures Targets(ChangesOf(st)) == st.staged.Keys
    ensures forall p | p in st.staged :: st.staged[p] in ChangesOf(st)
    ensures forall c | c in ChangesOf(st) ::
              c.path in st.staged && c == st.staged[c.path] && Good(s0, d0, c.path, c, c.path in done)
  {
    var changes := ChangesOf(st);
    forall i | 0 <= i < |changes|
      ensures changes[i].WellFormed() && changes[i].path == st.order[i]
              && Good(s0, d0, changes[i].path, changes[i], changes[i].path in done)
    {
      assert Good(s0, d0, st.order[i], st.staged[st.order[i]], st.order[i] in done);
    }
    forall p | p in st.staged ensures st.staged[p] in changes && p in Targets(changes) {
      var i :| 0 <= i < |st.order| && st.order[i] == p;
      assert changes[i] == st.staged[p];
      assert changes[i].path == p;
    }
  }

  /** Committing the entries leaves the files that staging promised. */
  lemma AfterIsFinal(s0: Files, d0: set<Path>, st: Stage, done: set<Path>)
    requires Inv(s0, d0, st, done) && [] in d0
    ensures Listed(st) && WellFormedSet(ChangesOf(st)) && After(s0, ChangesOf(st)) == Final(s0, st.staged)
  {
    hide Inv, UniquePaths, WellFormedSet, After, Final, ChangesOf;
    ChangesFit(s0, d0, st, done);
    var after, final := After(s0, ChangesOf(st)), Final(s0, st.staged);
    forall p ensures (p in after <==> p in final) && (p in after ==> after[p] == final[p]) {
      AfterAt(s0, d0, st, done, p);
    }
    assert after.Keys == final.Keys;
  }

  lemma MutationFacts(changes: seq<StagedFile>)
    requires WellFormedSet(changes) && UniquePaths(changes)
    ensures WellFormedSet(Mutations(changes))
    ensures forall p :: p in News(Mutations(changes)) <==> exists c :: c in changes && c.action.Write? && c.path == p
    ensures forall c | c in changes && c.action.Write? ::
              c.path in News(Mutations(changes)) && c.WellFormed() && News(Mutations(changes))[c.path] == c.NewFile()
  {
    hide Mutations, News;
    MutationsUnique(changes);
    NewsOf(Mutations(changes));
  }

  lemma AfterAt(s0: Files, d0: set<Path>, st: Stage, done: set<Path>, p: Path)
    requires Inv(s0, d0, st, done) && [] in d0
    ensures Listed(st) && WellFormedSet(ChangesOf(st))
    ensures p in After(s0, ChangesOf(st)) <==> p in Final(s0, st.staged)
    ensures p in After(s0, ChangesOf(st)) ==> After(s0, ChangesOf(st))[p] == Final(s0, st.staged)[p]
  {
    hide Inv, News, Mutations, UniquePaths, WellFormedSet, Capture;
    ChangesFit(s0, d0, st, done);
    var changes := ChangesOf(st);
    MutationFacts(changes);
    if p in st.staged {
      var f := st.staged[p];
      assert f in changes;
      assert f in Mutations(changes) <==> !f.action.Verify?;
    }
    assert forall c | c in Mutations(changes) :: c in changes && st.staged[c.path] == c;
  }

  datatype Report = Report(affected: map<Path, Evidence>, mutated: bool)

  /** What the evidence for a path says about the files as they now are. */
  ghost predicate Evident(p: Path, e: Evidence, s0: Files, files: Files) {
    && (e.revision.Some? ==>
          && p in files && files[p].data == Text(e.revision.value.text)
          && e.total == T.TotalLines(e.revision.value.text))
    && (e.revision.None? ==> p !in files && e.total == 0)
    && (e.change.Deleted? <==> e.revision.None?)
    && (e.change.Unchanged? ==> p in s0 && p in files && files[p] == s0[p])
    && (e.change.Updated? ==> p in files && (p in s0 ==> files[p] != s0[p]))
  }

  /** The report against the files that running the patch leaves. */
  ghost predicate Reported(affected: map<Path, Evidence>, s0: Files, files: Files) {
    && (forall p | p in affected :: Evident(p, affected[p], s0, files))
    && (forall p | p !in affected :: p in files <==> p in s0)
    && (forall p | p in files && p !in affected :: files[p] == s0[p])
  }

  lemma StageReports(s0: Files, d0: set<Path>, st: Stage, done: set<Path>)
    requires Inv(s0, d0, st, done)
    ensures Reported(st.affected, s0, Final(s0, st.staged))
  {
    forall p | p in st.affected ensures Evident(p, st.affected[p], s0, Final(s0, st.staged)) {
      assert Good(s0, d0, p, st.staged[p], p in done) && Honest(s0, st.staged[p], st.affected[p]);
    }
  }

  method HasRepeat(ops: seq<PatchOp>) returns (r: Option<Path>)
    ensures r.None? <==> UniquePrimaries(ops)
    ensures r.Some? ==> exists i, j :: 0 <= i < j < |ops| && ops[i].path == ops[j].path == r.value
  {
    var seen: set<Path> := {};
    var i := 0;
    while i < |ops|
      invariant 0 <= i <= |ops| && seen == Primaries(ops[..i]) && UniquePrimaries(ops[..i])
    {
      assert ops[..i + 1] == ops[..i] + [ops[i]];
      PrimariesOf(ops[..i], ops[i]);
      if ops[i].path in seen {
        assert exists k :: 0 <= k < i && ops[..i][k].path == ops[i].path;
        return Some(ops[i].path);
      }
      seen := seen + {ops[i].path};
      i := i + 1;
    }
    assert ops[..i] == ops;
    r := None;
  }

  predicate SomethingChanged(affected: map<Path, Evidence>) {
    exists p | p in affected :: !affected[p].change.Unchanged?
  }

  lemma MutationReported(s0: Files, d0: set<Path>, st: Stage, done: set<Path>)
    requires Inv(s0, d0, st, done) && [] in d0
    ensures Listed(st) && (Mutations(ChangesOf(st)) != [] <==> SomethingChanged(st.affected))
  {
    hide Inv, UniquePaths, WellFormedSet;
    ChangesFit(s0, d0, st, done);
    var m := Mutations(ChangesOf(st));
    HonestAll(s0, d0, st, done);
    if SomethingChanged(st.affected) {
      var p :| p in st.affected && !st.affected[p].change.Unchanged?;
      assert st.staged[p] in m;
    }
    if m != [] {
      assert m[0] in m && st.staged[m[0].path] == m[0];
    }
  }

  lemma HonestAll(s0: Files, d0: set<Path>, st: Stage, done: set<Path>)
    requires Inv(s0, d0, st, done)
    ensures st.affected.Keys == st.staged.Keys
    ensures forall p | p in st.staged :: st.affected[p].change.Unchanged? <==> st.staged[p].action.Verify?
  {
    assert forall p | p in st.staged :: Honest(s0, st.staged[p], st.affected[p]);
  }

  /** Whether anything at all is to be written. */
  method AnyMutation(changes: seq<StagedFile>) returns (b: bool)
    ensures b <==> Mutations(changes) != []
  {
    b := exists c | c in changes :: !c.action.Verify?;
    assert Mutations(changes) != [] ==> Mutations(changes)[0] in Mutations(changes);
  }

  // The operations one by one on a tree of files and directories.

  datatype Tree = Tree(files: Files, dirs: set<Path>)

  /** The directories that paths lie in. */
  ghost function Chains(paths: set<Path>): set<Path> {
    set p, k | p in paths && 0 <= k < |p| :: p[..k]
  }

  /** Writes a file, making its directories. */
  ghost function Put(t: Tree, p: Path, f: File): Option<Tree> {
    if p in t.dirs || Chains({p}) * t.files.Keys != {} then None else Some(Tree(t.files[p := f], t.dirs + Chains({p})))
  }

  ghost function RunOpInTree(t: Tree, op: PatchOp): Option<Tree> {
    match op
    case AddFile(p, content) =>
      Put(t, p, File(Text(content), if p in t.files then t.files[p].mode else DEFAULT_MODE))
    case DeleteFile(p) =>
      if p in t.files then Some(t.(files := t.files - {p})) else None
    case UpdateFile(p, hunks, moveTo) =>
      if p !in t.files || t.files[p].data.Raw? then None
      else
        match H.Edit(t.files[p].data.text, hunks)
        case Err(_) => None
        case Ok(o) =>
          var file := File(Text(o.content), t.files[p].mode);
          match moveTo
          case None => Some(t.(files := t.files[p := file]))
          case Some(dest) => Put(t.(files := t.files - {p}), dest, file)
  }

  ghost function RunInTree(t: Tree, ops: seq<PatchOp>): Option<Tree> {
    if ops == [] then Some(t)
    else
      match RunInTree(t, ops[..|ops| - 1])
      case None => None
      case Some(now) => RunOpInTree(now, ops[|ops| - 1])
  }

  /** No path lies below another one, nor below an original file. */
  ghost predicate Clear(s0: Files, paths: set<Path>) {
    Chains(paths) !! s0.Keys + paths
  }

  lemma ChainsOf(paths: set<Path>, p: Path)
    ensures Chains(paths + {p}) == Chains(paths) + Chains({p})
  {
  }

  /** The directories of an existing file exist. */
  lemma ChainIsThere(d: Disk, p: Path)
    requires d.Valid() && p in d.files
    ensures Chains({p}) <= d.dirs
  {
    AboveIsThere(d, p);
  }

  lemma OpStays(files: Files, d0: set<Path>, op: PatchOp)
    requires RunOp(files, d0, op).Some?
    ensures RunOp(files, d0, op).value.Keys <= files.Keys + TouchedBy(op)
  {
    hide H.Edit;
  }

  /** Files that a run leaves are original ones, or ones it touched. */
  lemma {:induction false} RunStays(s0: Files, d0: set<Path>, ops: seq<PatchOp>)
    requires Run(s0, d0, ops).Some?
    ensures Run(s0, d0, ops).value.Keys <= s0.Keys + Touched(ops)
  {
    hide RunOp, Touched, TouchedBy;
    if ops != [] {
      var init, op := ops[..|ops| - 1], ops[|ops| - 1];
      assert ops == init + [op];
      RunStays(s0, d0, init);
      OpStays(Run(s0, d0, init).value, d0, op);
      TouchedStep(init, op);
    }
  }

  lemma PutFits(d: Disk, all: set<Path>, done: set<Path>, t: Tree, p: Path, f: File)
    requires Clear(d.files, all) && done <= all && p in all && p !in d.dirs
    requires t.files.Keys <= d.files.Keys + all && t.dirs == d.dirs + Chains(done)
    ensures Put(t, p, f) == Some(Tree(t.files[p := f], d.dirs + Chains(done + {p})))
  {
    ChainsOf(done, p);
    assert Chains(done) <= Chains(all) && Chains({p}) <= Chains(all);
    assert t.dirs + Chains({p}) == d.dirs + Chains(done + {p});
  }

  lemma OpInTree(d: Disk, all: set<Path>, done: set<Path>, t: Tree, op: PatchOp)
    requires d.Valid() && Clear(d.files, all) && done + TouchedBy(op) <= all
    requires t.files.Keys <= d.files.Keys + done && t.dirs == d.dirs + Chains(done)
    requires RunOp(t.files, d.dirs, op).Some?
    ensures RunOpInTree(t, op) == Some(Tree(RunOp(t.files, d.dirs, op).value, d.dirs + Chains(done + TouchedBy(op))))
  {
    hide Clear, Chains, Put, Disk.Valid, H.Edit;
    assert !(op.UpdateFile? && op.moveTo.Some?) ==> TouchedBy(op) == {op.path};
    match op
    case AddFile(p, content) =>
      PutFits(d, all, done, t, p, File(Text(content), if p in t.files then t.files[p].mode else DEFAULT_MODE));
    case DeleteFile(p) =>
      SourceThere(d, done, p);
    case UpdateFile(p, hunks, moveTo) =>
      SourceThere(d, done, p);
      if moveTo.Some? { MoveInTree(d, all, done, t, op, p, moveTo.value); }
  }

  lemma MoveInTree(d: Disk, all: set<Path>, done: set<Path>, t: Tree, op: PatchOp, p: Path, dest: Path)
    requires Clear(d.files, all) && done <= all && dest in all && op.UpdateFile? && op.path == p
             && op.moveTo == Some(dest)
    requires t.files.Keys <= d.files.Keys + done && t.dirs == d.dirs + Chains(done) == d.dirs + Chains(done + {p})
    requires RunOp(t.files, d.dirs, op).Some?
    ensures RunOpInTree(t, op) == Some(Tree(RunOp(t.files, d.dirs, op).value, d.dirs + Chains(done + TouchedBy(op))))
  {
    hide Clear, Chains, Put, H.Edit;
    var file := File(Text(H.Edit(t.files[p].data.text, op.hunks).value.content), t.files[p].mode);
    PutFits(d, all, done, t.(files := t.files - {p}), dest, file);
    MoveChains(d, done, p, dest);
    assert TouchedBy(op) == {p, dest};
  }

  lemma SourceThere(d: Disk, done: set<Path>, p: Path)
    requires d.Valid() && p in d.files.Keys + done
    ensures d.dirs + Chains(done + {p}) == d.dirs + Chains(done)
  {
    if p in done { assert done + {p} == done; } else { ChainIsThere(d, p); }
    ChainsOf(done, p);
  }

  lemma MoveChains(d: Disk, done: set<Path>, p: Path, dest: Path)
    requires d.dirs + Chains(done + {p}) == d.dirs + Chains(done)
    ensures d.dirs + Chains(done + {p, dest}) == d.dirs + Chains(done + {dest})
  {
    ChainsOf(done + {p}, dest);
    ChainsOf(done, dest);
    assert done + {p, dest} == done + {p} + {dest};
  }

  /** Where the touched paths are clear of each other and of the original files, running in the tree
      is running over the files alone, and the directories are those of the touched paths. */
  lemma {:induction false} ClearRunsInTree(d: Disk, all: set<Path>, ops: seq<PatchOp>)
    requires d.Valid() && Clear(d.files, all) && Touched(ops) <= all
    ensures RunInTree(Tree(d.files, d.dirs), ops) ==
            if Run(d.files, d.dirs, ops).Some?
              then Some(Tree(Run(d.files, d.dirs, ops).value, d.dirs + Chains(Touched(ops)))) else None
  {
    hide Clear, Disk.Valid, RunOp, RunOpInTree, Touched, TouchedBy;
    if ops == [] {
      NothingTouched(ops);
      assert d.dirs + {} == d.dirs;
    } else {
      var init, op := ops[..|ops| - 1], ops[|ops| - 1];
      assert ops == init + [op];
      TouchedStep(init, op);
      ClearRunsInTree(d, all, init);
      if Run(d.files, d.dirs, init).Some? {
        RunStays(d.files, d.dirs, init);
        var t := RunInTree(Tree(d.files, d.dirs), init).value;
        if RunOp(t.files, d.dirs, op).Some? {
          OpInTree(d, all, Touched(init), t, op);
        } else {
          NoOpInTree(d.dirs, t, op);
        }
      }
    }
  }

  lemma NothingTouched(ops: seq<PatchOp>)
    requires ops == []
    ensures Touched(ops) == {} && Chains(Touched(ops)) == {}
  {
  }

  lemma NoOpInTree(d0: set<Path>, t: Tree, op: PatchOp)
    requires d0 <= t.dirs && RunOp(t.files, d0, op).None?
    ensures RunOpInTree(t, op).None?
  {
  }

  /** What runs one by one need not go through at once: a file deleted, and another one added below it. */
  lemma NotAtOnce(f: File) returns (d: Disk, ops: seq<PatchOp>)
    ensures d.Valid() && UniquePrimaries(ops) && StageAll(d.files, d.dirs, ops).Ok?
    ensures RunInTree(Tree(d.files, d.dirs), ops).Some? && !Clear(d.files, Touched(ops))
  {
    hide StageAll, StageOp, Inv, Final;
    var files: Files := map[[1] := f];
    d := Disk(files, {[]}, [files], [], [], 0);
    var remove, add := DeleteFile([1]), AddFile([1, 2], "");
    ops := [remove, add];
    assert Parent([1]) == [];
    assert ops[..1] == [remove] && [remove][..0] == [];
    assert Run(files, {[]}, [remove]) == Some(files - {[1]});
    StagingIsRunning(files, {[]}, ops);
    assert RunInTree(Tree(files, {[]}), [remove]) == Some(Tree(files - {[1]}, {[]}));
    assert [1] in Chains(Touched(ops)) by {
      assert [1, 2] in TouchedBy(add) && add in ops;
      assert [1, 2][..1] == [1];
    }
  }

  /** The staged set can be committed at once exactly if the touched paths are clear. */
  lemma ClearIsUnobstructed(d: Disk, st: Stage, done: set<Path>)
    requires d.Valid() && Inv(d.files, d.dirs, st, done)
    ensures Listed(st)
    ensures Unobstructed(d.files, d.dirs, ChangesOf(st), Mutations(ChangesOf(st))) <==> Clear(d.files, st.staged.Keys)
    ensures d.dirs + Prefixes(Mutations(ChangesOf(st))) == d.dirs + Chains(st.staged.Keys)
  {
    hide Inv, UniquePaths, WellFormedSet, ChangesOf, Disk.Valid;
    RootIsDirectory(d);
    ChangesFit(d.files, d.dirs, st, done);
    var changes := ChangesOf(st);
    var muts := Mutations(changes);
    forall c | c in changes ensures Matches(c.baseline, c.path, d.files, d.dirs)
      && (c.action.Verify? ==> Chains({c.path}) <= d.dirs) {
      if c.action.Verify? { ChainIsThere(d, c.path); }
    }
    ChainsMade(d.dirs, changes, muts, st.staged.Keys);
    assert st.staged.Keys !! d.dirs;
  }

  lemma ChainsMade(d0: set<Path>, changes: seq<StagedFile>, muts: seq<StagedFile>, paths: set<Path>)
    requires muts == Mutations(changes) && Targets(changes) == paths
    requires forall c | c in changes && c.action.Verify? :: Chains({c.path}) <= d0
    ensures Prefixes(muts) <= Chains(paths) <= d0 + Prefixes(muts)
  {
    forall q | q in Prefixes(muts) ensures q in Chains(paths) {
      var c, k :| c in muts && 0 <= k < |c.path| && q == c.path[..k];
      assert c.path in Targets(changes);
    }
    forall q | q in Chains(paths) ensures q in d0 + Prefixes(muts) {
      var p, k :| p in paths && 0 <= k < |p| && q == p[..k];
      var c :| c in changes && c.path == p;
      assert q in Chains({c.path});
    }
  }

  /** The report tells of exactly the touched paths, each with the loosest grade of its edits and called what the
      last operation naming it did. */
  ghost predicate ReportsAll(s0: Files, d0: set<Path>, ops: seq<PatchOp>, affected: map<Path, Evidence>, s: Files) {
    && Run(s0, d0, ops).Some? && affected.Keys == Touched(ops)
    && Reported(affected, s0, s)
    && (forall p | p in affected :: LoosestIn(affected[p].quality, GradesOf(s0, d0, ops, p)))
    && (forall p | p in affected :: LastNaming(ops, p).Some? && Labelled(p, LastNaming(ops, p).value, affected[p]))
  }

  lemma AllReported(s0: Files, d0: set<Path>, ops: seq<PatchOp>)
    requires UniquePrimaries(ops) && s0.Keys !! d0 && StageAll(s0, d0, ops).Ok?
    ensures Run(s0, d0, ops).Some?
    ensures ReportsAll(s0, d0, ops, StageAll(s0, d0, ops).value.affected, Run(s0, d0, ops).value)
  {
    hide StageAll, Run, Inv, Final, Decodable, Reported, Touched, LoosestIn, GradesOf, Labelled, LastNaming;
    StagingIsRunning(s0, d0, ops);
    var st := StageAll(s0, d0, ops).value;
    StageReports(s0, d0, st, Primaries(ops));
    HonestAll(s0, d0, st, Primaries(ops));
    forall p | p in st.affected ensures LoosestIn(st.affected[p].quality, GradesOf(s0, d0, ops, p)) {
      GradesReported(s0, d0, ops, p);
    }
    forall p | p in st.affected
      ensures LastNaming(ops, p).Some? && Labelled(p, LastNaming(ops, p).value, st.affected[p])
    {
      LabelsReported(s0, d0, ops, p);
    }
  }

  /** Something is reported as changed exactly if the files differ, or the last operation naming some path was not
      an update in place. */
  lemma ChangedIff(s0: Files, d0: set<Path>, ops: seq<PatchOp>, affected: map<Path, Evidence>, s: Files)
    requires ReportsAll(s0, d0, ops, affected, s)
    ensures SomethingChanged(affected) <==>
              s != s0 || exists p :: p in Touched(ops) && LastNaming(ops, p).Some? && !InPlace(LastNaming(ops, p).value)
    ensures (forall op | op in ops :: InPlace(op)) ==> (SomethingChanged(affected) <==> s != s0)
  {
    hide Touched, Run, GradesOf, LoosestIn;
    if SomethingChanged(affected) {
      var p :| p in affected && !affected[p].change.Unchanged?;
      assert Evident(p, affected[p], s0, s);
    } else {
      forall p ensures (p in s <==> p in s0) && (p in s ==> s[p] == s0[p]) {
        assert p in affected ==> Evident(p, affected[p], s0, s);
      }
    }
    forall p | p in affected ensures LastNaming(ops, p).value in ops {
      NamingIsThere(ops, p);
    }
  }

  lemma {:induction false} NamingIsThere(ops: seq<PatchOp>, p: Path)
    requires LastNaming(ops, p).Some?
    ensures LastNaming(ops, p).value in ops && p in TouchedBy(LastNaming(ops, p).value)
  {
    var init := ops[..|ops| - 1];
    if p !in TouchedBy(ops[|ops| - 1]) {
      NamingIsThere(init, p);
      assert LastNaming(init, p).value in init;
    }
  }

  /** The mutations that a patch comes to. */
  ghost function MutationsOf(s0: Files, d0: set<Path>, ops: seq<PatchOp>): seq<StagedFile> {
    var staged := StageAll(s0, d0, ops);
    if staged.Ok? && Listed(staged.value) then Mutations(ChangesOf(staged.value)) else []
  }

  /** Exactly the paths reported as changed are written: none that an update left as it was. */
  lemma MutatedIff(s0: Files, d0: set<Path>, ops: seq<PatchOp>, p: Path)
    requires UniquePrimaries(ops) && s0.Keys !! d0 && [] in d0 && StageAll(s0, d0, ops).Ok?
    ensures Run(s0, d0, ops).Some?
    ensures p in Targets(MutationsOf(s0, d0, ops)) <==>
              var s := Run(s0, d0, ops).value;
              && p in Touched(ops) && LastNaming(ops, p).Some?
              && (InPlace(LastNaming(ops, p).value) ==> p in s && (p in s0 ==> s[p] != s0[p]))
  {
    hide StageAll, Run, Inv, Final, Decodable, GradesOf, LoosestIn, LastNaming, Touched, ChangesOf;
    StagingIsRunning(s0, d0, ops);
    var st := StageAll(s0, d0, ops).value;
    AllReported(s0, d0, ops);
    InvListed(s0, d0, st, Primaries(ops));
    ChangesFit(s0, d0, st, Primaries(ops));
    HonestAll(s0, d0, st, Primaries(ops));
    var muts := Mutations(ChangesOf(st));
    assert p in Targets(muts) <==> p in st.staged && !st.staged[p].action.Verify? by {
      if p in st.staged { assert st.staged[p].path == p && st.staged[p] in ChangesOf(st); }
    }
    if p in st.staged {
      assert Evident(p, st.affected[p], s0, Run(s0, d0, ops).value);
    }
  }

  /** What a successful patch has done to the disk, leaving out scratch files it refused to delete: it
      has run the operations, and reports exactly the paths it staged. */
  ghost predicate Succeeded(s0: Files, d0: set<Path>, ops: seq<PatchOp>, s: Files, dirs: set<Path>, report: Report) {
    && RunInTree(Tree(s0, d0), ops) == Some(Tree(s, dirs))
    && ReportsAll(s0, d0, ops, report.affected, s)
  }

  /** What a patch whose commit did not go through has left. */
  ghost predicate TakenBack(outcome: Outcome, s0: Files, d0: set<Path>, muts: seq<StagedFile>, d: Disk,
          faults: seq<DirFault>, refused: set<Path>, stranded: set<Path>, stuck: set<Path>)
  {
    && !outcome.Committed?
    && (outcome.Failed? ==> d.files - refused == s0)
    && (outcome.RollbackFailed? ==> Recoverable(s0, d.files, outcome.recovery))
    && DirsPromise(outcome, d0, muts, d.dirs, faults, refused, stranded, stuck)
  }

  /** At every moment of the commit the patch could be taken back by hand, or was installed completely. */
  ghost predicate CrashSafePatch(s0: Files, d0: set<Path>, ops: seq<PatchOp>, recorded: map<Path, Path>,
          trace: seq<Files>, before: seq<Files>)
  {
    var muts := MutationsOf(s0, d0, ops);
    && WellFormedSet(muts) && Prefixes(muts) <= d0 + Chains(Touched(ops))
    && CrashSafe(s0, muts, recorded, trace, before)
  }

  /** apply_patch. */
  method ApplyPatch(fs: FileSystem, ops: seq<PatchOp>, dryRun: bool)
    returns (r: Result<Report, PatchFailure>, ghost recorded: map<Path, Path>, ghost stranded: set<Path>,
            ghost stuck: set<Path>)
    requires fs.Valid()
    modifies fs
    ensures fs.Valid() && old(fs.unlinkFaults) <= fs.unlinkFaults && old(fs.dirFaults) <= fs.dirFaults
    ensures dryRun || (r.Err? && !r.error.NotCommitted?) ==>
              fs.files == old(fs.files) && fs.dirs == old(fs.dirs) && fs.trace == old(fs.trace)
    ensures r.Err? && r.error.Unread? ==> fs.raised == old(fs.raised) + 1
    ensures !(r.Err? && r.error.Unread?) ==>
              (r.Err? && r.error.Refused? <==>
               || ops == [] || !UniquePrimaries(ops) || Run(old(fs.files), old(fs.dirs), ops).None?
               || exists op | op in ops :: !Decodable(old(fs.files), op))
    ensures r.Err? && r.error.Refused? ==>
              if ops == [] then r.error.reason == NoFilesModified
              else if UniquePrimaries(ops) then Refusal(old(fs.files), old(fs.dirs), ops) == Some(r.error.reason)
              else r.error.reason.RepeatedPath?
                   && exists i, j :: 0 <= i < j < |ops| && ops[i].path == ops[j].path == r.error.reason.path
    ensures r.Ok? && dryRun ==>
              && Run(old(fs.files), old(fs.dirs), ops).Some?
              && ReportsAll(old(fs.files), old(fs.dirs), ops, r.value.affected,
                   Run(old(fs.files), old(fs.dirs), ops).value)
    ensures !dryRun && (r.Ok? || r.error.NotCommitted?) ==>
              CrashSafePatch(old(fs.files), old(fs.dirs), ops, recorded, fs.trace, old(fs.trace))
    ensures var refused, faults := Elements(fs.unlinkFaults[|old(fs.unlinkFaults)|..]),
              fs.dirFaults[|old(fs.dirFaults)|..];
            && (r.Ok? && !dryRun ==>
                  && Clear(old(fs.files), Touched(ops))
                  && Succeeded(old(fs.files), old(fs.dirs), ops, fs.files - refused, fs.dirs, r.value))
            && (r.Err? && r.error.NotCommitted? ==>
                  TakenBack(r.error.outcome, old(fs.files), old(fs.dirs), MutationsOf(old(fs.files), old(fs.dirs), ops),
                            fs.Now(), faults, refused, stranded, stuck))
    ensures fs.raised == old(fs.raised) && !dryRun && !(r.Err? && r.error.Refused?) ==>
              (r.Ok? <==> Clear(old(fs.files), Touched(ops)))
    ensures fs.raised == old(fs.raised) && r.Err? ==> fs.files == old(fs.files) && fs.dirs == old(fs.dirs)
    ensures r.Ok? ==>
              (r.value.mutated <==>
                && !dryRun
                && (Run(old(fs.files), old(fs.dirs), ops) != Some(old(fs.files))
                    || exists p :: p in Touched(ops) && LastNaming(ops, p).Some? && !InPlace(LastNaming(ops, p).value)))
    ensures r.Ok? && !dryRun && (forall op | op in ops :: InPlace(op)) ==>
              (r.value.mutated <==> Run(old(fs.files), old(fs.dirs), ops) != Some(old(fs.files)))
  {
    hide StageAll, Run, RunInTree, Inv, Final, Decodable, ReportsAll, Promise, Refusal, DirsPromise, CrashSafe,
      Unobstructed, AsPrepared, NothingOnTheWay, Mutations, WellFormedSet, UniquePaths, UniquePrimaries, Disk.Valid,
      After, Clear, Chains, Touched, Prefixes;
    ghost var d := fs.Now();
    ghost var s0, d0 := fs.files, fs.dirs;
    recorded, stranded, stuck := map[], {}, {};
    RootIsDirectory(d);
    var repeated := HasRepeat(ops);
    if repeated.Some? {
      r := Err(Refused(RepeatedPath(repeated.value)));
      return;
    }
    var staged := StageOps(fs, ops);
    if staged.None? {
      r := Err(Unread);
      return;
    }
    StagingIsRunning(s0, d0, ops);
    NothingRefused(s0, d0);
    if staged.value.Err? {
      r := Err(Refused(staged.value.error));
      return;
    }
    var st := staged.value.value;
    StagedNotCommit(s0, d0, st, ops);
    if |st.affected| == 0 {
      r := Err(Refused(NoFilesModified));
      return;
    }
    AllReported(s0, d0, ops);
    ChangesFit(s0, d0, st, Primaries(ops));
    AfterIsFinal(s0, d0, st, Primaries(ops));
    InvListed(s0, d0, st, Primaries(ops));
    var changes := ChangesOf(st);
    var mutated := AnyMutation(changes);
    MutationReported(s0, d0, st, Primaries(ops));
    ChangedIff(s0, d0, ops, st.affected, Run(s0, d0, ops).value);
    UnobstructedIff(s0, d0, changes, Mutations(changes));
    if !dryRun {
      ClearIsUnobstructed(d, st, Primaries(ops));
      ClearInTree(d, ops);
      assert WellFormedSet(Mutations(changes)) by { MutationsWellFormed(changes); }
      var outcome;
      outcome, recorded, stranded, stuck := Commit(fs, changes);
      PromiseKept(outcome, s0, d0, changes, fs.files, Elements(fs.unlinkFaults[|old(fs.unlinkFaults)|..]));
      DirsKept(outcome, d0, Mutations(changes), fs.dirs, fs.dirFaults[|old(fs.dirFaults)|..],
        Elements(fs.unlinkFaults[|old(fs.unlinkFaults)|..]), stranded, stuck);
      if !outcome.Committed? {
        r := Err(NotCommitted(outcome));
        return;
      }
    }
    r := Ok(Report(st.affected, mutated && !dryRun));
  }

  lemma MutationsWellFormed(changes: seq<StagedFile>)
    requires WellFormedSet(changes)
    ensures WellFormedSet(Mutations(changes))
  {
  }

  lemma ClearInTree(d: Disk, ops: seq<PatchOp>)
    requires d.Valid() && Run(d.files, d.dirs, ops).Some?
    ensures Clear(d.files, Touched(ops)) ==>
            RunInTree(Tree(d.files, d.dirs), ops) ==
              Some(Tree(Run(d.files, d.dirs, ops).value, d.dirs + Chains(Touched(ops))))
  {
    if Clear(d.files, Touched(ops)) { ClearRunsInTree(d, Touched(ops), ops); }
  }

  lemma DirsKept(outcome: Outcome, d0: set<Path>, muts: seq<StagedFile>, dirs: set<Path>, faults: seq<DirFault>,
          refused: set<Path>, stranded: set<Path>, stuck: set<Path>)
    requires DirsPromise(outcome, d0, muts, dirs, faults, refused, stranded, stuck)
    ensures outcome.Committed? ==> dirs == d0 + Prefixes(muts)
  {
  }

  lemma RootIsDirectory(d: Disk)
    requires d.Valid()
    ensures [] in d.dirs && d.files.Keys !! d.dirs
  {
  }

  /** Something is staged exactly if there was an operation. */
  lemma StagedNotCommit(s0: Files, d0: set<Path>, st: Stage, ops: seq<PatchOp>)
    requires StageAll(s0, d0, ops) == Ok(st) && Inv(s0, d0, st, Primaries(ops))
    ensures |st.affected| == 0 <==> ops == []
  {
    hide StageOp;
    if ops != [] {
      var init := ops[..|ops| - 1];
      StageOpStages(s0, d0, StageAll(s0, d0, init).value, ops[|ops| - 1]);
    }
  }

  lemma StageOpStages(s0: Files, d0: set<Path>, st: Stage, op: PatchOp)
    requires StageOp(s0, d0, st, op, EditFor(s0, d0, st, op)).Ok?
    ensures op.path in StageOp(s0, d0, st, op, EditFor(s0, d0, st, op)).value.affected
  {
  }

  lemma PromiseKept(outcome: Outcome, s0: Files, d0: set<Path>, changes: seq<StagedFile>, s: Files, refused: set<Path>)
    requires WellFormedSet(changes) && Promise(outcome, s0, d0, changes, s, refused)
    ensures outcome.Committed? ==> s - refused == After(s0, changes)
    ensures outcome.Failed? ==> s - refused == s0
    ensures outcome.RollbackFailed? ==> Recoverable(s0, s, outcome.recovery)
  {
  }
}
