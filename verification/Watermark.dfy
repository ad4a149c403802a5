/** The persistence watermark and the one-shot resolver stash, as steps that any
    number of connections to one mirror interleave. */
module Watermark {
  import opened Order

  /** What a save, in flight on one connection, has done so far: it has read the
      counter, then captured the contents at counter `at`, then written the file. */
  datatype Save<C> =
    | SeqRead(seqAtStart: nat)
    | Projected(seqAtStart: nat, at: nat, captured: C)
    | Written(seqAtStart: nat, at: nat, captured: C)

  datatype Phase<C> = Begun | DiskRead(disk: C) | Settling | Counted(count: nat)

  /** A connection on its way to settle the watermark without a save of its own:
      a reconcile with the file that found the mirror clean at counter `since`, or
      the end of a save that adopts another vault's key-derivation settings, which
      captured the contents at `since`. `own` are its own owed writes and `moved`
      its own rows; `others` are the rows others have written since; `relieved`
      says that someone else has given writes to the file since, or written rows
      that are not owed. */
  datatype Window<C> = Window(since: nat, own: set<nat>, moved: nat, others: nat, relieved: bool, phase: Phase<C>)

  /** A resolver that is being opened has read the watermark first. */
  datatype Stash<C> = Stash(projectedAtSeq: nat, local: C, remote: C)

  /** `C` stands for the contents of a vault. A write is named by the counter it
      leaves behind: `unwritten` are the writes the file has not been given, `lost`
      those that a file ingest threw away before it was. */
  datatype State<C> = State(
    content: C, mutationSeq: nat, persistedSeq: nat, file: C, unwritten: set<nat>, lost: set<nat>,
    saves: map<nat, Save<C>>, windows: map<nat, Window<C>>,
    opening: map<nat, nat>, stashes: map<nat, Stash<C>>, nextId: nat, consumed: seq<nat>)

  /** `writes` is the number of projected rows a transaction writes. */
  datatype Event<C, R> =
    | Mutate(content: C, writes: nat)
    | BeginSave(conn: nat)
    | ProjectSave(conn: nat)
    | WriteFile(conn: nat)
    | FinishSave(conn: nat)
    | FinishAdoption(conn: nat)
    | BeginReconcile(conn: nat)
    | ReadDisk(conn: nat)
    | Adopt(conn: nat, content: C, writes: nat)
    | Compare(conn: nat)
    | RecordFacts(conn: nat, writes: nat)
    | Count(conn: nat)
    | Settle(conn: nat)
    | ExternalWrite(content: C)
    | IngestFile(content: C, writes: nat, settles: bool)
    | BeginResolver(conn: nat)
    | StashResolver(conn: nat, remote: C)
    | ApplyResolution(id: nat, resolution: R, writes: nat)

  /** The merge library: a merge under a resolution, and the content digest that
      two vaults are compared by. */
  datatype Library<!C, !R> = Library(merge: (C, C, R) -> C, digest: C -> nat)

  function Initial<C>(content: C): State<C> {
    State(content, 0, 0, content, {}, {}, map[], map[], map[], map[], 0, [])
  }

  predicate Dirty<C>(s: State<C>) {
    s.mutationSeq > s.persistedSeq
  }

  /** The row triggers: contents change only with at least one row write, and a
      whole-vault ingest always writes. */
  predicate Legal<C(==), R>(s: State<C>, e: Event<C, R>) {
    match e
    case Mutate(content, writes) => writes == 0 ==> content == s.content
    case Adopt(_, content, writes) => writes == 0 ==> content == s.content
    case IngestFile(_, writes, _) => writes > 0
    case ApplyResolution(_, _, writes) => writes > 0
    case _ => true
  }

  // ----- the steps

  /** What a window makes of a write of `rows` rows, by its own connection or not. */
  function Noticed<C>(w: Window<C>, mine: bool, rows: nat, owed: bool, stamp: nat): Window<C> {
    if mine then w.(own := if owed then w.own + {stamp} else w.own, moved := w.moved + rows)
    else if w.phase.Counted? then w
    else w.(others := w.others + rows, relieved := w.relieved || !owed)
  }

  /** One transaction. `owed` says that what it writes is not yet in the file. */
  function Wrote<C>(s: State<C>, who: Option<nat>, content: C, rows: nat, owed: bool): State<C> {
    if rows == 0 then s.(content := content)
    else
      var stamp := s.mutationSeq + rows;
      s.(content := content, mutationSeq := stamp, unwritten := if owed then s.unwritten + {stamp} else s.unwritten,
         windows := map k | k in s.windows :: Noticed(s.windows[k], who == Some(k), rows, owed, stamp))
  }

  /** The windows once writes have been given to the file by someone else. */
  function Relieved<C>(windows: map<nat, Window<C>>): map<nat, Window<C>> {
    map k | k in windows :: windows[k].(relieved := true)
  }

  function Above(stamps: set<nat>, seqAt: nat): set<nat> {
    set u | u in stamps && u > seqAt
  }

  function Step<C, R>(s: State<C>, e: Event<C, R>, lib: Library<C, R>): State<C> {
    match e
    case Mutate(content, writes) => Wrote(s, None, content, writes, true)
    case BeginSave(conn) =>
      s.(saves := s.saves[conn := SeqRead(s.mutationSeq)])
    case ProjectSave(conn) =>
      if conn in s.saves && s.saves[conn].SeqRead?
      then s.(saves := s.saves[conn := Projected(s.saves[conn].seqAtStart, s.mutationSeq, s.content)]) else s
    case WriteFile(conn) =>
      if conn in s.saves && s.saves[conn].Projected? then
        var save := s.saves[conn];
        s.(file := save.captured, unwritten := Above(s.unwritten, save.at), windows := Relieved(s.windows),
           saves := s.saves[conn := Written(save.seqAtStart, save.at, save.captured)])
      else s
    case FinishSave(conn) =>
      if conn in s.saves && s.saves[conn].Written?
      then s.(persistedSeq := s.saves[conn].seqAtStart, saves := s.saves - {conn}) else s
    case FinishAdoption(conn) =>
      if conn in s.saves && s.saves[conn].Written? then
        var save := s.saves[conn];
        s.(persistedSeq := save.seqAtStart, saves := s.saves - {conn},
           windows := s.windows[conn := AfterSave(s, save.at)])
      else s
    case BeginReconcile(conn) =>
      if Dirty(s) then s.(windows := s.windows - {conn})
      else s.(windows := s.windows[conn := Window(s.mutationSeq, {}, 0, 0, false, Begun)])
    case ReadDisk(conn) =>
      if conn in s.windows && s.windows[conn].phase.Begun?
      then s.(windows := s.windows[conn := s.windows[conn].(phase := DiskRead(s.file))]) else s
    case Adopt(conn, content, writes) =>
      if conn in s.windows && s.windows[conn].phase.DiskRead?
      then Wrote(s, Some(conn), content, writes, true) else Wrote(s, None, content, writes, true)
    case Compare(conn) =>
      if conn in s.windows && s.windows[conn].phase.DiskRead? then
        var w := s.windows[conn];
        if lib.digest(s.content) == lib.digest(w.phase.disk)
        then s.(unwritten := s.unwritten - w.own, windows := Relieved(s.windows)[conn := w.(phase := Settling)])
        else s.(windows := s.windows - {conn})
      else s
    case RecordFacts(conn, writes) =>
      if conn in s.windows && s.windows[conn].phase.Settling?
      then Wrote(s, Some(conn), s.content, writes, false) else Wrote(s, None, s.content, writes, true)
    case Count(conn) =>
      if conn in s.windows && s.windows[conn].phase.Settling?
      then s.(windows := s.windows[conn := s.windows[conn].(phase := Counted(s.mutationSeq))]) else s
    case Settle(conn) =>
      if conn in s.windows && s.windows[conn].phase.Counted?
      then s.(persistedSeq := s.windows[conn].phase.count, windows := s.windows - {conn}) else s
    case ExternalWrite(content) =>
      s.(file := content)
    case IngestFile(content, writes, settles) =>
      if Dirty(s) then s
      else
        var t := Wrote(s.(unwritten := {}, lost := s.lost + s.unwritten, windows := Relieved(s.windows)), None, content, writes, !settles);
        if settles then t.(persistedSeq := t.mutationSeq) else t
    case BeginResolver(conn) =>
      s.(opening := s.opening[conn := s.mutationSeq])
    case StashResolver(conn, remote) =>
      if conn in s.opening
      then s.(stashes := s.stashes[s.nextId := Stash(s.opening[conn], s.content, remote)],
              opening := s.opening - {conn}, nextId := s.nextId + 1) else s
    case ApplyResolution(id, resolution, writes) =>
      if id !in s.stashes then s
      else
        var taken := s.(stashes := s.stashes - {id}, consumed := s.consumed + [id]);
        if s.mutationSeq != s.stashes[id].projectedAtSeq then taken
        else Wrote(taken, None, lib.merge(s.stashes[id].local, s.stashes[id].remote, resolution), writes, true)
  }

  ghost predicate LegalRun<C, R>(s: State<C>, run: seq<Event<C, R>>, lib: Library<C, R>)
    decreases run
  {
    run == [] || (Legal(s, run[0]) && LegalRun(Step(s, run[0], lib), run[1..], lib))
  }

  ghost function End<C, R>(s: State<C>, run: seq<Event<C, R>>, lib: Library<C, R>): State<C>
    decreases run
  {
    if run == [] then s else End(Step(s, run[0], lib), run[1..], lib)
  }

  lemma {:induction false} RunsJoin<C, R>(s: State<C>, first: seq<Event<C, R>>, second: seq<Event<C, R>>, lib: Library<C, R>)
    ensures LegalRun(s, first + second, lib) <==> LegalRun(s, first, lib) && LegalRun(End(s, first, lib), second, lib)
    ensures End(s, first + second, lib) == End(End(s, first, lib), second, lib)
    decreases first
  {
    if first == [] {
      assert first + second == second;
    } else {
      assert (first + second)[1..] == first[1..] + second;
      RunsJoin(Step(s, first[0], lib), first[1..], second, lib);
    }
  }

  // ----- the invariant every interleaving keeps

  /** What was read at `seqAt` is what the mirror holds, if it has not moved. */
  ghost predicate Current<C>(s: State<C>, seqAt: nat, content: C) {
    seqAt <= s.mutationSeq && (seqAt == s.mutationSeq ==> content == s.content)
  }

  ghost predicate SaveSound<C>(s: State<C>, save: Save<C>) {
    match save
    case SeqRead(seqAtStart) => seqAtStart <= s.mutationSeq
    case Projected(seqAtStart, at, captured) => seqAtStart <= at && Current(s, at, captured)
    case Written(seqAtStart, at, captured) => seqAtStart <= at && Current(s, at, captured) && forall u :: u in s.unwritten ==> u > at
  }

  /** An owed write of someone else since the window opened, and before it
      counted. */
  ghost predicate Foreign<C>(s: State<C>, w: Window<C>, u: nat) {
    u in s.unwritten && u !in w.own && u > w.since && (w.phase.Counted? ==> u <= w.phase.count)
  }

  ghost predicate WindowSound<C>(s: State<C>, w: Window<C>) {
    && w.since + w.moved + w.others == (if w.phase.Counted? then w.phase.count else s.mutationSeq)
    && (w.phase.Counted? ==> w.phase.count <= s.mutationSeq)
    && (w.phase.Settling? || w.phase.Counted? ==> w.own !! s.unwritten)
    && (forall u :: u in w.own ==> u <= s.mutationSeq)
    && (!w.relieved && w.others > 0 ==> exists u :: Foreign(s, w, u))
  }

  ghost predicate Inv<C>(s: State<C>) {
    && s.persistedSeq <= s.mutationSeq
    && (forall u :: u in s.unwritten ==> 0 < u <= s.mutationSeq)
    && (forall conn :: conn in s.saves ==> SaveSound(s, s.saves[conn]))
    && (forall conn :: conn in s.windows ==> WindowSound(s, s.windows[conn]))
    && (forall conn :: conn in s.opening ==> s.opening[conn] <= s.mutationSeq)
    && (forall id :: id in s.stashes ==> id < s.nextId && Current(s, s.stashes[id].projectedAtSeq, s.stashes[id].local))
    && (forall i :: 0 <= i < |s.consumed| ==> s.consumed[i] < s.nextId && s.consumed[i] !in s.stashes)
    && (forall i, j :: 0 <= i < j < |s.consumed| ==> s.consumed[i] != s.consumed[j])
  }

  lemma WroteKeepsSaves<C>(s: State<C>, who: Option<nat>, content: C, rows: nat, owed: bool, conn: nat)
    requires Inv(s) && (rows == 0 ==> content == s.content) && conn in s.saves
    ensures SaveSound(Wrote(s, who, content, rows, owed), s.saves[conn])
  {
    assert SaveSound(s, s.saves[conn]);
  }

  lemma WroteKeepsWindow<C>(s: State<C>, who: Option<nat>, content: C, rows: nat, owed: bool, conn: nat)
    requires Inv(s) && rows > 0 && conn in s.windows
    requires who == Some(conn) ==> if owed then s.windows[conn].phase.DiskRead? else s.windows[conn].phase.Settling?
    ensures WindowSound(Wrote(s, who, content, rows, owed), Wrote(s, who, content, rows, owed).windows[conn])
  {
    var t, w := Wrote(s, who, content, rows, owed), s.windows[conn];
    var v := t.windows[conn];
    assert WindowSound(s, w);
    if !v.relieved && v.others > 0 {
      if !w.relieved && w.others > 0 {
        var u :| Foreign(s, w, u);
        assert Foreign(t, v, u);
      } else {
        assert Foreign(t, v, t.mutationSeq);
      }
    }
  }

  lemma WroteKeepsInv<C>(s: State<C>, who: Option<nat>, content: C, rows: nat, owed: bool)
    requires Inv(s) && (rows == 0 ==> content == s.content)
    requires who.Some? && who.value in s.windows ==>
               if owed then s.windows[who.value].phase.DiskRead? else s.windows[who.value].phase.Settling?
    ensures Inv(Wrote(s, who, content, rows, owed))
  {
    var t := Wrote(s, who, content, rows, owed);
    forall conn | conn in t.saves ensures SaveSound(t, t.saves[conn]) {
      WroteKeepsSaves(s, who, content, rows, owed, conn);
    }
    if rows > 0 {
      forall conn | conn in t.windows ensures WindowSound(t, t.windows[conn]) {
        WroteKeepsWindow(s, who, content, rows, owed, conn);
      }
    } else {
      assert t == s;
    }
  }

  /** Taking writes off the owed ones keeps the invariant, once every window is
      told. */
  lemma GivingKeepsInv<C>(s: State<C>, left: set<nat>, lost: set<nat>)
    requires Inv(s) && left <= s.unwritten
    ensures Inv(s.(unwritten := left, lost := lost, windows := Relieved(s.windows)))
  {
    var t := s.(unwritten := left, lost := lost, windows := Relieved(s.windows));
    forall conn | conn in t.saves ensures SaveSound(t, t.saves[conn]) {
      assert SaveSound(s, s.saves[conn]);
    }
    forall conn | conn in t.windows ensures WindowSound(t, t.windows[conn]) {
      assert WindowSound(s, s.windows[conn]);
    }
  }

  /** One window changes, or goes; the mirror does not. */
  lemma WindowKeepsInv<C>(s: State<C>, windows: map<nat, Window<C>>)
    requires Inv(s) && forall conn :: conn in windows ==> WindowSound(s, windows[conn])
    ensures Inv(s.(windows := windows))
  {
    var t := s.(windows := windows);
    forall conn | conn in t.saves ensures SaveSound(t, t.saves[conn]) {
      assert SaveSound(s, s.saves[conn]);
    }
    forall conn | conn in windows ensures WindowSound(t, windows[conn]) {
      SameWindow(s, t, windows[conn]);
    }
  }

  lemma SameWindow<C>(s: State<C>, t: State<C>, w: Window<C>)
    requires WindowSound(s, w) && t.mutationSeq == s.mutationSeq && t.unwritten == s.unwritten
    ensures WindowSound(t, w)
  {
    if u :| Foreign(s, w, u) {
      assert Foreign(t, w, u);
    }
  }

  lemma SavesKeepInv<C>(s: State<C>, persistedSeq: nat, saves: map<nat, Save<C>>)
    requires Inv(s) && persistedSeq <= s.mutationSeq
    requires forall conn :: conn in saves ==> SaveSound(s, saves[conn])
    ensures Inv(s.(persistedSeq := persistedSeq, saves := saves))
  {
    var t := s.(persistedSeq := persistedSeq, saves := saves);
    forall conn | conn in saves ensures SaveSound(t, saves[conn]) {
    }
    forall conn | conn in t.windows ensures WindowSound(t, t.windows[conn]) {
      SameWindow(s, t, t.windows[conn]);
    }
  }

  /** A save's own steps. */
  lemma SaveStepKeepsInv<C, R>(s: State<C>, e: Event<C, R>, lib: Library<C, R>)
    requires Inv(s) && (e.BeginSave? || e.ProjectSave? || e.FinishSave? || e.FinishAdoption?)
    ensures Inv(Step(s, e, lib))
  {
    forall conn | conn in s.saves ensures SaveSound(s, s.saves[conn]) {
    }
    match e
    case BeginSave(conn) =>
      SavesKeepInv(s, s.persistedSeq, s.saves[conn := SeqRead(s.mutationSeq)]);
    case ProjectSave(conn) =>
      if conn in s.saves && s.saves[conn].SeqRead? {
        SavesKeepInv(s, s.persistedSeq, s.saves[conn := Projected(s.saves[conn].seqAtStart, s.mutationSeq, s.content)]);
      }
    case FinishSave(conn) =>
      if conn in s.saves && s.saves[conn].Written? {
        SavesKeepInv(s, s.saves[conn].seqAtStart, s.saves - {conn});
      }
    case FinishAdoption(conn) =>
      if conn in s.saves && s.saves[conn].Written? {
        var save := s.saves[conn];
        SavesKeepInv(s, save.seqAtStart, s.saves - {conn});
        var t := s.(persistedSeq := save.seqAtStart, saves := s.saves - {conn});
        AdoptionWindow(t, save.at);
        WindowKeepsInv(t, t.windows[conn := AfterSave(t, save.at)]);
      }
  }

  /** The window a save opens when it adopts key-derivation settings. */
  function AfterSave<C>(s: State<C>, at: nat): Window<C> {
    Window(at, {}, 0, if s.mutationSeq >= at then s.mutationSeq - at else 0, s.unwritten == {}, Settling)
  }

  lemma AdoptionWindow<C>(s: State<C>, at: nat)
    requires Inv(s) && at <= s.mutationSeq && forall u :: u in s.unwritten ==> u > at
    ensures WindowSound(s, AfterSave(s, at))
  {
    if u :| u in s.unwritten {
      assert Foreign(s, AfterSave(s, at), u);
    }
  }

  lemma WriteFileKeepsInv<C>(s: State<C>, conn: nat)
    requires Inv(s) && conn in s.saves && s.saves[conn].Projected?
    ensures var save := s.saves[conn];
            Inv(s.(file := save.captured, unwritten := Above(s.unwritten, save.at), windows := Relieved(s.windows),
                   saves := s.saves[conn := Written(save.seqAtStart, save.at, save.captured)]))
  {
    var save := s.saves[conn];
    assert SaveSound(s, save);
    var given := s.(unwritten := Above(s.unwritten, save.at), lost := s.lost, windows := Relieved(s.windows));
    GivingKeepsInv(s, Above(s.unwritten, save.at), s.lost);
    var written := given.(file := save.captured);
    FileIsFree(given, save.captured);
    forall k | k in written.saves ensures SaveSound(written, written.saves[k]) {
    }
    SavesKeepInv(written, s.persistedSeq, s.saves[conn := Written(save.seqAtStart, save.at, save.captured)]);
  }

  lemma FileIsFree<C>(s: State<C>, file: C)
    requires Inv(s)
    ensures Inv(s.(file := file))
  {
    var t := s.(file := file);
    forall conn | conn in t.saves ensures SaveSound(t, t.saves[conn]) {
      assert SaveSound(s, s.saves[conn]);
    }
    forall conn | conn in t.windows ensures WindowSound(t, t.windows[conn]) {
      SameWindow(s, t, t.windows[conn]);
    }
  }

  /** A reconcile's own steps that write no rows. */
  lemma WindowStepKeepsInv<C, R>(s: State<C>, e: Event<C, R>, lib: Library<C, R>)
    requires Inv(s) && (e.BeginReconcile? || e.ReadDisk? || e.Compare? || e.Count? || e.Settle?)
    ensures Inv(Step(s, e, lib))
  {
    forall conn | conn in s.windows ensures WindowSound(s, s.windows[conn]) {
    }
    match e
    case BeginReconcile(conn) =>
      if Dirty(s) {
        WindowKeepsInv(s, s.windows - {conn});
      } else {
        WindowKeepsInv(s, s.windows[conn := Window(s.mutationSeq, {}, 0, 0, false, Begun)]);
      }
    case ReadDisk(conn) =>
      if conn in s.windows && s.windows[conn].phase.Begun? {
        PhaseKeepsInv(s, conn, DiskRead(s.file));
      }
    case Compare(conn) =>
      if conn in s.windows && s.windows[conn].phase.DiskRead? {
        if lib.digest(s.content) == lib.digest(s.windows[conn].phase.disk) {
          CompareKeepsInv(s, conn);
        } else {
          WindowKeepsInv(s, s.windows - {conn});
        }
      }
    case Count(conn) =>
      if conn in s.windows && s.windows[conn].phase.Settling? {
        PhaseKeepsInv(s, conn, Counted(s.mutationSeq));
      }
    case Settle(conn) =>
      if conn in s.windows && s.windows[conn].phase.Counted? {
        var t := s.(windows := s.windows - {conn});
        WindowKeepsInv(s, t.windows);
        forall k | k in t.saves ensures SaveSound(t, t.saves[k]) {
          assert SaveSound(s, s.saves[k]);
        }
        SavesKeepInv(t, s.windows[conn].phase.count, s.saves);
      }
  }

  lemma PhaseKeepsInv<C>(s: State<C>, conn: nat, phase: Phase<C>)
    requires Inv(s) && conn in s.windows && !s.windows[conn].phase.Counted?
    requires phase.DiskRead? || (phase == Counted(s.mutationSeq) && s.windows[conn].phase.Settling?)
    ensures Inv(s.(windows := s.windows[conn := s.windows[conn].(phase := phase)]))
  {
    var w := s.windows[conn];
    var v := w.(phase := phase);
    assert WindowSound(s, w);
    if u :| Foreign(s, w, u) {
      assert Foreign(s, v, u);
    }
    WindowKeepsInv(s, s.windows[conn := v]);
  }

  lemma CompareKeepsInv<C>(s: State<C>, conn: nat)
    requires Inv(s) && conn in s.windows && s.windows[conn].phase.DiskRead?
    ensures var w := s.windows[conn];
            Inv(s.(unwritten := s.unwritten - w.own, windows := Relieved(s.windows)[conn := w.(phase := Settling)]))
  {
    var w := s.windows[conn];
    var v := w.(phase := Settling);
    GivingKeepsInv(s, s.unwritten - w.own, s.lost);
    var t := s.(unwritten := s.unwritten - w.own, lost := s.lost, windows := Relieved(s.windows));
    assert WindowSound(s, w);
    if u :| Foreign(s, w, u) {
      assert Foreign(t, v, u);
    }
    forall k | k in t.windows ensures WindowSound(t, t.windows[k]) {
    }
    WindowKeepsInv(t, t.windows[conn := v]);
  }

  lemma IngestKeepsInv<C>(s: State<C>, content: C, writes: nat, settles: bool)
    requires Inv(s) && writes > 0
    ensures var t := Wrote(s.(unwritten := {}, lost := s.lost + s.unwritten, windows := Relieved(s.windows)), None, content, writes, !settles);
            Inv(if settles then t.(persistedSeq := t.mutationSeq) else t)
  {
    var given := s.(unwritten := {}, lost := s.lost + s.unwritten, windows := Relieved(s.windows));
    GivingKeepsInv(s, {}, s.lost + s.unwritten);
    WroteKeepsInv(given, None, content, writes, !settles);
    var t := Wrote(given, None, content, writes, !settles);
    forall k | k in t.saves ensures SaveSound(t, t.saves[k]) {
    }
    SavesKeepInv(t, if settles then t.mutationSeq else t.persistedSeq, t.saves);
  }

  lemma ResolverStepKeepsInv<C, R>(s: State<C>, e: Event<C, R>, lib: Library<C, R>)
    requires Inv(s) && Legal(s, e) && (e.BeginResolver? || e.StashResolver? || e.ApplyResolution?)
    ensures Inv(Step(s, e, lib))
  {
    match e
    case BeginResolver(conn) =>
      StashesKeepInv(s, s.opening[conn := s.mutationSeq], s.stashes, s.nextId, s.consumed);
    case StashResolver(conn, remote) =>
      if conn in s.opening {
        StashesKeepInv(s, s.opening - {conn}, s.stashes[s.nextId := Stash(s.opening[conn], s.content, remote)], s.nextId + 1, s.consumed);
      }
    case ApplyResolution(id, resolution, writes) =>
      if id in s.stashes {
        var taken := s.(stashes := s.stashes - {id}, consumed := s.consumed + [id]);
        StashesKeepInv(s, s.opening, s.stashes - {id}, s.nextId, s.consumed + [id]);
        if s.mutationSeq == s.stashes[id].projectedAtSeq {
          WroteKeepsInv(taken, None, lib.merge(s.stashes[id].local, s.stashes[id].remote, resolution), writes, true);
        }
      }
  }

  lemma StashesKeepInv<C>(s: State<C>, opening: map<nat, nat>, stashes: map<nat, Stash<C>>, nextId: nat, consumed: seq<nat>)
    requires Inv(s) && (forall conn :: conn in opening ==> opening[conn] <= s.mutationSeq)
    requires forall id :: id in stashes ==> id < nextId && Current(s, stashes[id].projectedAtSeq, stashes[id].local)
    requires forall i :: 0 <= i < |consumed| ==> consumed[i] < nextId && consumed[i] !in stashes
    requires forall i, j :: 0 <= i < j < |consumed| ==> consumed[i] != consumed[j]
    ensures Inv(s.(opening := opening, stashes := stashes, nextId := nextId, consumed := consumed))
  {
    var t := s.(opening := opening, stashes := stashes, nextId := nextId, consumed := consumed);
    forall conn | conn in t.saves ensures SaveSound(t, t.saves[conn]) {
      assert SaveSound(s, s.saves[conn]);
    }
    forall conn | conn in t.windows ensures WindowSound(t, t.windows[conn]) {
      SameWindow(s, t, t.windows[conn]);
    }
    forall id | id in stashes ensures Current(t, stashes[id].projectedAtSeq, stashes[id].local) {
      assert Current(s, stashes[id].projectedAtSeq, stashes[id].local);
    }
  }

  lemma StepKeepsInv<C, R>(s: State<C>, e: Event<C, R>, lib: Library<C, R>)
    requires Inv(s) && Legal(s, e)
    ensures Inv(Step(s, e, lib)) && Step(s, e, lib).mutationSeq >= s.mutationSeq
  {
    match e
    case Mutate(content, writes) => WroteKeepsInv(s, None, content, writes, true);
    case Adopt(conn, content, writes) =>
      WroteKeepsInv(s, if conn in s.windows && s.windows[conn].phase.DiskRead? then Some(conn) else None, content, writes, true);
    case RecordFacts(conn, writes) =>
      var own := conn in s.windows && s.windows[conn].phase.Settling?;
      WroteKeepsInv(s, if own then Some(conn) else None, s.content, writes, !own);
    case WriteFile(conn) =>
      if conn in s.saves && s.saves[conn].Projected? {
        WriteFileKeepsInv(s, conn);
      }
    case ExternalWrite(content) => FileIsFree(s, content);
    case IngestFile(content, writes, settles) =>
      if !Dirty(s) {
        IngestKeepsInv(s, content, writes, settles);
      }
    case BeginSave(_) => SaveStepKeepsInv(s, e, lib);
    case ProjectSave(_) => SaveStepKeepsInv(s, e, lib);
    case FinishSave(_) => SaveStepKeepsInv(s, e, lib);
    case FinishAdoption(_) => SaveStepKeepsInv(s, e, lib);
    case BeginResolver(_) => ResolverStepKeepsInv(s, e, lib);
    case StashResolver(_, _) => ResolverStepKeepsInv(s, e, lib);
    case ApplyResolution(_, _, _) => ResolverStepKeepsInv(s, e, lib);
    case _ => WindowStepKeepsInv(s, e, lib);
  }

  /** Every state any interleaving reaches satisfies the invariant; in particular
      the file is never credited with more than the mirror has. */
  lemma {:induction false} RunKeepsInv<C, R>(s: State<C>, run: seq<Event<C, R>>, lib: Library<C, R>)
    requires Inv(s) && LegalRun(s, run, lib)
    ensures Inv(End(s, run, lib)) && End(s, run, lib).mutationSeq >= s.mutationSeq
    decreases run
  {
    if run != [] {
      StepKeepsInv(s, run[0], lib);
      RunKeepsInv(Step(s, run[0], lib), run[1..], lib);
    }
  }

  ghost predicate Reachable<C(!new), R(!new)>(s: State<C>, lib: Library<C, R>) {
    exists start: C, run: seq<Event<C, R>> :: LegalRun(Initial(start), run, lib) && s == End(Initial(start), run, lib)
  }

  lemma ReachableInv<C(!new), R(!new)>(s: State<C>, lib: Library<C, R>)
    requires Reachable(s, lib)
    ensures Inv(s)
  {
    var start: C, run: seq<Event<C, R>> :| LegalRun(Initial(start), run, lib) && s == End(Initial(start), run, lib);
    RunKeepsInv(Initial(start), run, lib);
  }

  // ----- resolving a conflict

  /** No lost update. In every reachable state an applied resolution either merges
      the contents the mirror holds at that very moment, or changes nothing; it
      commits exactly when the mirror has not been written since the resolver
      began to open. Either way its id is used up. */
  lemma ResolutionMergesCurrent<C(!new), R(!new)>(s: State<C>, lib: Library<C, R>, id: nat, resolution: R, writes: nat)
    requires Reachable(s, lib) && writes > 0
    ensures var t := Step(s, ApplyResolution(id, resolution, writes), lib);
            if id !in s.stashes then t == s
            else
              && id !in t.stashes && t.consumed == s.consumed + [id]
              && if s.stashes[id].projectedAtSeq == s.mutationSeq
                 then t.content == lib.merge(s.content, s.stashes[id].remote, resolution) && t.mutationSeq > s.mutationSeq
                 else t.content == s.content && t.mutationSeq == s.mutationSeq
  {
    ReachableInv(s, lib);
  }

  /** A stash is used at most once over any run: an id that was taken is neither
      stashed again nor taken again. */
  lemma StashIsOneShot<C(!new), R(!new)>(s: State<C>, run: seq<Event<C, R>>, lib: Library<C, R>, id: nat)
    requires Reachable(s, lib) && LegalRun(s, run, lib) && id in s.consumed
    ensures id !in End(s, run, lib).stashes
    ensures multiset(End(s, run, lib).consumed)[id] == 1
  {
    ReachableInv(s, lib);
    RunKeepsInv(s, run, lib);
    ConsumedGrows(s, run, lib);
    var end := End(s, run, lib).consumed;
    var i :| 0 <= i < |end| && end[i] == id;
    DistinctOnce(end, i);
  }

  lemma {:induction false} ConsumedGrows<C, R>(s: State<C>, run: seq<Event<C, R>>, lib: Library<C, R>)
    ensures s.consumed <= End(s, run, lib).consumed
    decreases run
  {
    if run != [] {
      StepConsumes(s, run[0], lib);
      ConsumedGrows(Step(s, run[0], lib), run[1..], lib);
    }
  }

  lemma StepConsumes<C, R>(s: State<C>, e: Event<C, R>, lib: Library<C, R>)
    ensures s.consumed <= Step(s, e, lib).consumed
  {
  }

  lemma DistinctOnce(s: seq<nat>, i: nat)
    requires i < |s| && forall j, k :: 0 <= j < k < |s| ==> s[j] != s[k]
    ensures multiset(s)[s[i]] == 1
  {
    assert s == s[..i] + [s[i]] + s[i + 1..];
    assert s[i] !in s[..i] && s[i] !in s[i + 1..];
    assert multiset(s) == multiset(s[..i]) + multiset{s[i]} + multiset(s[i + 1..]);
  }

  /** A mutation that lands while a save is in flight stays owed after the save is
      recorded. */
  lemma SaveNeverMasks<C(!new), R(!new)>(s: State<C>, run: seq<Event<C, R>>, lib: Library<C, R>,
                                         conn: nat, content: C, writes: nat)
    requires Reachable(s, lib) && writes > 0 && conn in s.saves
    requires LegalRun(Step(s, Mutate(content, writes), lib), run, lib)
    requires var t := End(Step(s, Mutate(content, writes), lib), run, lib);
             conn in t.saves && t.saves[conn].Written? && t.saves[conn].seqAtStart == s.saves[conn].seqAtStart
    ensures Dirty(Step(End(Step(s, Mutate(content, writes), lib), run, lib), FinishSave(conn), lib))
  {
    ReachableInv(s, lib);
    StepKeepsInv(s, Mutate(content, writes), lib);
    RunKeepsInv(Step(s, Mutate(content, writes), lib), run, lib);
    assert SaveSound(s, s.saves[conn]);
  }
}
