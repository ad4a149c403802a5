/** When the watermark may be trusted: what it takes for a mirror that counts as
    saved to owe its file nothing. */
module Trust {
  import opened Order
  import opened Watermark

  /** Every write the file has not been given is past the persisted mark. */
  ghost predicate Trusted<C>(s: State<C>) {
    forall u :: u in s.unwritten ==> u > s.persistedSeq
  }

  /** A mirror that counts as saved then owes nothing. */
  lemma CleanOwesNothing<C>(s: State<C>)
    requires Inv(s) && Trusted(s) && !Dirty(s)
    ensures s.unwritten == {}
  {
  }

  /** What a window that opened on a trusted mirror has around it. */
  ghost predicate OpenedClean<C>(s: State<C>, w: Window<C>) {
    forall u :: u in s.unwritten ==> Spotted(w, u)
  }

  /** The window can tell whose the write is, or that there was someone else's. */
  ghost predicate Spotted<C>(w: Window<C>, u: nat) {
    u > w.since && (u in w.own || (w.phase.Counted? && u > w.phase.count) || w.others > 0)
  }

  ghost predicate TrustInv<C>(s: State<C>) {
    Inv(s) && Trusted(s) && forall conn :: conn in s.windows ==> OpenedClean(s, s.windows[conn])
  }

  /** A settle masks: the mark it writes reaches a write the file was not given. */
  ghost predicate Masks<C, R>(s: State<C>, e: Event<C, R>) {
    e.Settle? && e.conn in s.windows && s.windows[e.conn].phase.Counted?
    && exists u :: u in s.unwritten && u <= s.windows[e.conn].phase.count
  }

  /** In the connection's own terms: it masks exactly if some other connection
      wrote something owed between its opening and its count, and no save has put
      that in the file since. */
  lemma MasksExactly<C, R>(s: State<C>, conn: nat)
    requires TrustInv(s) && conn in s.windows && s.windows[conn].phase.Counted?
    ensures Masks<C, R>(s, Settle(conn)) <==> exists u :: Foreign(s, s.windows[conn], u)
  {
    var w := s.windows[conn];
    assert WindowSound(s, w) && OpenedClean(s, w);
    if u :| u in s.unwritten && u <= w.phase.count {
      assert Foreign(s, w, u);
    }
  }

  /** In terms of the counters alone: a counter that has moved by exactly the
      connection's own rows masks nothing. Unless the file was given something by
      someone else meanwhile, one that has moved further masks. */
  lemma CountersTell<C, R>(s: State<C>, conn: nat)
    requires TrustInv(s) && conn in s.windows && s.windows[conn].phase.Counted?
    ensures var w := s.windows[conn];
            && (w.phase.count == w.since + w.moved ==> !Masks<C, R>(s, Settle(conn)))
            && (!w.relieved ==> (Masks<C, R>(s, Settle(conn)) <==> w.phase.count != w.since + w.moved))
  {
    MasksExactly<C, R>(s, conn);
    var w := s.windows[conn];
    assert WindowSound(s, w) && OpenedClean(s, w);
    if u :| Foreign(s, w, u) {
      assert w.others > 0;
    }
  }

  lemma WroteKeepsTrust<C>(s: State<C>, who: Option<nat>, content: C, rows: nat, owed: bool)
    requires TrustInv(s) && Inv(Wrote(s, who, content, rows, owed))
    ensures TrustInv(Wrote(s, who, content, rows, owed))
  {
    var t := Wrote(s, who, content, rows, owed);
    if rows == 0 {
      forall conn | conn in t.windows ensures OpenedClean(t, t.windows[conn]) {
        assert OpenedClean(s, s.windows[conn]);
      }
    } else {
      forall conn | conn in t.windows ensures OpenedClean(t, t.windows[conn]) {
        NoticedKeepsClean(s, s.windows[conn], who == Some(conn), rows, owed);
      }
    }
  }

  lemma NoticedKeepsClean<C>(s: State<C>, w: Window<C>, mine: bool, rows: nat, owed: bool)
    requires Inv(s) && WindowSound(s, w) && OpenedClean(s, w) && rows > 0
    ensures var v := Noticed(w, mine, rows, owed, s.mutationSeq + rows);
            && (forall u :: u in s.unwritten ==> Spotted(v, u))
            && (owed ==> Spotted(v, s.mutationSeq + rows))
  {
    var v := Noticed(w, mine, rows, owed, s.mutationSeq + rows);
    forall u | u in s.unwritten ensures Spotted(v, u) {
      assert Spotted(w, u);
    }
  }

  /** Fewer owed writes, a mark no higher than they are, and the same windows but
      for new ones. */
  lemma LessIsTrusted<C>(s: State<C>, t: State<C>)
    requires TrustInv(s) && Inv(t) && t.unwritten <= s.unwritten && Trusted(t)
    requires forall conn :: conn in t.windows ==>
               || OpenedClean(t, t.windows[conn])
               || (conn in s.windows && t.windows[conn] == s.windows[conn].(relieved := t.windows[conn].relieved, phase := t.windows[conn].phase)
                   && !s.windows[conn].phase.Counted?)
               || (conn in s.windows && t.windows[conn] == s.windows[conn].(relieved := t.windows[conn].relieved))
    ensures TrustInv(t)
  {
    forall conn | conn in t.windows ensures OpenedClean(t, t.windows[conn]) {
      if conn in s.windows {
        assert OpenedClean(s, s.windows[conn]);
      }
    }
  }

  lemma SettleKeepsTrust<C, R>(s: State<C>, conn: nat, lib: Library<C, R>)
    requires TrustInv(s) && !Masks<C, R>(s, Settle(conn))
    ensures TrustInv(Step(s, Settle(conn), lib))
  {
    StepKeepsInv(s, Settle(conn), lib);
    LessIsTrusted(s, Step(s, Settle(conn), lib));
  }

  lemma SaveKeepsTrust<C, R>(s: State<C>, e: Event<C, R>, lib: Library<C, R>)
    requires TrustInv(s) && (e.BeginSave? || e.ProjectSave? || e.WriteFile? || e.FinishSave? || e.FinishAdoption?)
    ensures TrustInv(Step(s, e, lib))
  {
    var t := Step(s, e, lib);
    StepKeepsInv(s, e, lib);
    if (e.FinishSave? || e.FinishAdoption?) && e.conn in s.saves {
      assert SaveSound(s, s.saves[e.conn]);
    }
    LessIsTrusted(s, t);
  }

  lemma WindowKeepsTrust<C, R>(s: State<C>, e: Event<C, R>, lib: Library<C, R>)
    requires TrustInv(s) && (e.BeginReconcile? || e.ReadDisk? || e.Compare? || e.Count?)
    ensures TrustInv(Step(s, e, lib))
  {
    StepKeepsInv(s, e, lib);
    match e
    case BeginReconcile(conn) => BeginningIsTrusted(s, conn, lib);
    case ReadDisk(conn) => ReadIsTrusted(s, conn, lib);
    case Compare(conn) => CompareIsTrusted(s, conn, lib);
    case Count(conn) => CountIsTrusted(s, conn, lib);
  }

  lemma ReadIsTrusted<C, R>(s: State<C>, conn: nat, lib: Library<C, R>)
    requires TrustInv(s) && Inv(Step(s, ReadDisk(conn), lib))
    ensures TrustInv(Step(s, ReadDisk(conn), lib))
  {
    var t := Step(s, ReadDisk(conn), lib);
    forall k | k in t.windows ensures OpenedClean(t, t.windows[k]) {
      StaysClean(s, t, s.windows[k], t.windows[k]);
    }
  }

  lemma CompareIsTrusted<C, R>(s: State<C>, conn: nat, lib: Library<C, R>)
    requires TrustInv(s) && Inv(Step(s, Compare(conn), lib))
    ensures TrustInv(Step(s, Compare(conn), lib))
  {
    if conn in s.windows && s.windows[conn].phase.DiskRead? {
      if lib.digest(s.content) == lib.digest(s.windows[conn].phase.disk) {
        FoundEqualIsTrusted(s, Step(s, Compare(conn), lib), conn);
      } else {
        GivesUp(s, conn);
        assert Step(s, Compare(conn), lib) == s.(windows := s.windows - {conn});
      }
    }
  }

  lemma GivesUp<C>(s: State<C>, conn: nat)
    requires TrustInv(s) && Inv(s.(windows := s.windows - {conn}))
    ensures TrustInv(s.(windows := s.windows - {conn}))
  {
    var t := s.(windows := s.windows - {conn});
    forall k | k in t.windows ensures OpenedClean(t, t.windows[k]) {
      StaysClean(s, t, s.windows[k], t.windows[k]);
    }
  }

  /** The connection's own writes are found in the file. */
  lemma FoundEqualIsTrusted<C>(s: State<C>, t: State<C>, conn: nat)
    requires TrustInv(s) && Inv(t) && conn in s.windows && s.windows[conn].phase.DiskRead?
    requires t == s.(unwritten := s.unwritten - s.windows[conn].own,
                     windows := Relieved(s.windows)[conn := s.windows[conn].(phase := Settling)])
    ensures TrustInv(t)
  {
    forall k | k in t.windows ensures OpenedClean(t, t.windows[k]) {
      StaysClean(s, t, s.windows[k], t.windows[k]);
    }
  }

  lemma CountIsTrusted<C, R>(s: State<C>, conn: nat, lib: Library<C, R>)
    requires TrustInv(s) && Inv(Step(s, Count(conn), lib))
    ensures TrustInv(Step(s, Count(conn), lib))
  {
    var t := Step(s, Count(conn), lib);
    forall k | k in t.windows ensures OpenedClean(t, t.windows[k]) {
      StaysClean(s, t, s.windows[k], t.windows[k]);
    }
  }

  lemma StaysClean<C>(s: State<C>, t: State<C>, w: Window<C>, later: Window<C>)
    requires OpenedClean(s, w) && t.unwritten <= s.unwritten
    requires later.since == w.since && later.own == w.own && later.others == w.others
    requires w.phase.Counted? ==> later.phase == w.phase
    ensures OpenedClean(t, later)
  {
    forall u | u in t.unwritten ensures Spotted(later, u) {
      assert Spotted(w, u);
    }
  }

  lemma BeginningIsTrusted<C, R>(s: State<C>, conn: nat, lib: Library<C, R>)
    requires TrustInv(s) && Inv(Step(s, BeginReconcile(conn), lib))
    ensures TrustInv(Step(s, BeginReconcile(conn), lib))
  {
    if !Dirty(s) {
      CleanOwesNothing(s);
    }
    LessIsTrusted(s, Step(s, BeginReconcile(conn), lib));
  }

  lemma StepKeepsTrust<C, R>(s: State<C>, e: Event<C, R>, lib: Library<C, R>)
    requires TrustInv(s) && Legal(s, e) && !Masks(s, e)
    ensures TrustInv(Step(s, e, lib))
    ensures Step(s, e, lib).lost == s.lost
  {
    match e
    case Mutate(_, _) => WriteKeepsTrust(s, e, lib);
    case Adopt(_, _, _) => WriteKeepsTrust(s, e, lib);
    case RecordFacts(_, _) => WriteKeepsTrust(s, e, lib);
    case ApplyResolution(id, resolution, writes) => ResolutionKeepsTrust(s, id, resolution, writes, lib);
    case IngestFile(content, writes, settles) =>
      if !Dirty(s) {
        CleanOwesNothing(s);
        IngestKeepsTrust(s, content, writes, settles);
      }
    case Settle(conn) => SettleKeepsTrust(s, conn, lib);
    case BeginSave(_) => SaveKeepsTrust(s, e, lib);
    case ProjectSave(_) => SaveKeepsTrust(s, e, lib);
    case WriteFile(_) => SaveKeepsTrust(s, e, lib);
    case FinishSave(_) => SaveKeepsTrust(s, e, lib);
    case FinishAdoption(_) => SaveKeepsTrust(s, e, lib);
    case BeginReconcile(_) => WindowKeepsTrust(s, e, lib);
    case ReadDisk(_) => WindowKeepsTrust(s, e, lib);
    case Compare(_) => WindowKeepsTrust(s, e, lib);
    case Count(_) => WindowKeepsTrust(s, e, lib);
    case _ => RestKeepsTrust(s, e, lib);
  }

  lemma RestKeepsTrust<C, R>(s: State<C>, e: Event<C, R>, lib: Library<C, R>)
    requires TrustInv(s) && (e.ExternalWrite? || e.BeginResolver? || e.StashResolver?)
    ensures TrustInv(Step(s, e, lib))
    ensures Step(s, e, lib).lost == s.lost
  {
    StepKeepsInv(s, e, lib);
    LessIsTrusted(s, Step(s, e, lib));
  }

  lemma WriteKeepsTrust<C, R>(s: State<C>, e: Event<C, R>, lib: Library<C, R>)
    requires TrustInv(s) && Legal(s, e) && (e.Mutate? || e.Adopt? || e.RecordFacts?)
    ensures TrustInv(Step(s, e, lib))
    ensures Step(s, e, lib).lost == s.lost
  {
    StepKeepsInv(s, e, lib);
    match e
    case Mutate(content, writes) => WroteKeepsTrust(s, None, content, writes, true);
    case Adopt(conn, content, writes) =>
      WroteKeepsTrust(s, if conn in s.windows && s.windows[conn].phase.DiskRead? then Some(conn) else None, content, writes, true);
    case RecordFacts(conn, writes) =>
      var own := conn in s.windows && s.windows[conn].phase.Settling?;
      WroteKeepsTrust(s, if own then Some(conn) else None, s.content, writes, !own);
  }

  lemma ResolutionKeepsTrust<C, R>(s: State<C>, id: nat, resolution: R, writes: nat, lib: Library<C, R>)
    requires TrustInv(s) && writes > 0
    ensures TrustInv(Step(s, ApplyResolution(id, resolution, writes), lib))
    ensures Step(s, ApplyResolution(id, resolution, writes), lib).lost == s.lost
  {
    ResolverStepKeepsInv(s, ApplyResolution(id, resolution, writes), lib);
    if id in s.stashes {
      var taken := s.(stashes := s.stashes - {id}, consumed := s.consumed + [id]);
      StashesKeepInv(s, s.opening, s.stashes - {id}, s.nextId, s.consumed + [id]);
      LessIsTrusted(s, taken);
      if s.mutationSeq == s.stashes[id].projectedAtSeq {
        WroteKeepsTrust(taken, None, lib.merge(s.stashes[id].local, s.stashes[id].remote, resolution), writes, true);
      }
    }
  }

  lemma IngestKeepsTrust<C>(s: State<C>, content: C, writes: nat, settles: bool)
    requires TrustInv(s) && s.unwritten == {} && writes > 0 && s.persistedSeq == s.mutationSeq
    ensures var t := Wrote(s.(unwritten := {}, lost := s.lost + s.unwritten, windows := Relieved(s.windows)), None, content, writes, !settles);
            TrustInv(if settles then t.(persistedSeq := t.mutationSeq) else t)
  {
    IngestKeepsInv(s, content, writes, settles);
    var given := s.(unwritten := {}, lost := s.lost + s.unwritten, windows := Relieved(s.windows));
    GivingKeepsInv(s, {}, s.lost + s.unwritten);
    LessIsTrusted(s, given);
    WroteKeepsInv(given, None, content, writes, !settles);
    WroteKeepsTrust(given, None, content, writes, !settles);
    var t := Wrote(given, None, content, writes, !settles);
    if settles {
      LessIsTrusted(t, t.(persistedSeq := t.mutationSeq));
    }
  }

  ghost predicate NeverMasks<C, R>(s: State<C>, run: seq<Event<C, R>>, lib: Library<C, R>)
    decreases run
  {
    run == [] || (!Masks(s, run[0]) && NeverMasks(Step(s, run[0], lib), run[1..], lib))
  }

  /** Trusted at every point of the run. */
  ghost predicate AlwaysTrusted<C, R>(s: State<C>, run: seq<Event<C, R>>, lib: Library<C, R>)
    decreases run
  {
    Trusted(s) && (run == [] || AlwaysTrusted(Step(s, run[0], lib), run[1..], lib))
  }

  /** The counters may be trusted all along a run exactly if no settle in it
      masks, and then no file ingest loses anything. */
  lemma {:induction false} TrustedExactly<C, R>(s: State<C>, run: seq<Event<C, R>>, lib: Library<C, R>)
    requires TrustInv(s) && LegalRun(s, run, lib)
    ensures AlwaysTrusted(s, run, lib) <==> NeverMasks(s, run, lib)
    ensures NeverMasks(s, run, lib) ==> TrustInv(End(s, run, lib)) && End(s, run, lib).lost == s.lost
    decreases run
  {
    if run != [] {
      if Masks(s, run[0]) {
        MaskIsSeen(s, run[0], lib);
      } else {
        StepKeepsTrust(s, run[0], lib);
        TrustedExactly(Step(s, run[0], lib), run[1..], lib);
      }
    }
  }

  lemma MaskIsSeen<C, R>(s: State<C>, e: Event<C, R>, lib: Library<C, R>)
    requires Masks(s, e)
    ensures !Trusted(Step(s, e, lib))
  {
    var u :| u in s.unwritten && u <= s.windows[e.conn].phase.count;
    assert u in Step(s, e, lib).unwritten;
  }

  /** A file ingest loses exactly what the mirror owes while it counts as saved:
      nothing, wherever the counters may be trusted. */
  lemma IngestLosesExactly<C, R>(s: State<C>, lib: Library<C, R>, content: C, writes: nat, settles: bool)
    requires Inv(s) && writes > 0
    ensures var t := Step(s, IngestFile(content, writes, settles), lib);
            && (Dirty(s) ==> t == s)
            && (!Dirty(s) ==> t.content == content && t.lost == s.lost + s.unwritten && (Dirty(t) <==> !settles))
            && (!Dirty(s) ==> (s.unwritten == {} <==> Trusted(s)))
  {
  }

  // ----- where they may not

  /** A window about to settle with someone else's owed write in it loses that
      write: counting and settling leaves the mirror counted as saved, and the next
      file ingest throws the write away. */
  lemma ForeignWriteIsLost<C, R>(s: State<C>, conn: nat, lib: Library<C, R>, u: nat, content: C, writes: nat, settles: bool)
    requires TrustInv(s) && conn in s.windows && s.windows[conn].phase.Settling? && writes > 0
    requires Foreign(s, s.windows[conn], u)
    ensures var settled := Step(Step(s, Count(conn), lib), Settle(conn), lib);
            && !Dirty(settled) && !Trusted(settled)
            && u in Step(settled, IngestFile(content, writes, settles), lib).lost
  {
    var counted := Step(s, Count(conn), lib);
    assert counted.windows[conn].phase == Counted(s.mutationSeq);
    assert u in Step(counted, Settle(conn), lib).unwritten;
  }

  ghost predicate Goes<C, R>(s: State<C>, e: Event<C, R>, t: State<C>, lib: Library<C, R>) {
    Legal(s, e) && t == Step(s, e, lib)
  }

  /** The states of a run, one by one. */
  lemma {:induction false} RunThrough<C, R>(states: seq<State<C>>, run: seq<Event<C, R>>, lib: Library<C, R>)
    requires |states| == |run| + 1
    requires forall i :: 0 <= i < |run| ==> Goes(states[i], run[i], states[i + 1], lib)
    ensures LegalRun(states[0], run, lib) && End(states[0], run, lib) == states[|run|]
  {
    if run != [] {
      RunThrough(states[1..], run[1..], lib);
    }
  }

  function AdoptFile<C, R>(conn: nat, file: C): seq<Event<C, R>> {
    [BeginReconcile(conn), ReadDisk(conn), Adopt(conn, file, 1), Compare(conn)]
  }

  function EditAndSettle<C, R>(conn: nat, edit: C): seq<Event<C, R>> {
    [Mutate(edit, 1), Count(conn), Settle(conn)]
  }

  /** From every clean state: a reconcile adopts the file, another connection edits,
      the reconcile settles. The edit is in no file, the mirror counts as saved, and
      the next ingest of the file throws the edit away. */
  lemma ReconcileCanMask<C, R>(s: State<C>, conn: nat, edit: C, lib: Library<C, R>)
    requires TrustInv(s) && !Dirty(s)
    ensures LegalRun(s, AdoptFile(conn, s.file) + EditAndSettle(conn, edit), lib)
    ensures Masked(End(s, AdoptFile(conn, s.file) + EditAndSettle(conn, edit), lib), edit, s.file, lib)
  {
    FileAdopted(s, conn, lib);
    EditSettledOver(End(s, AdoptFile(conn, s.file), lib), conn, edit, lib);
    RunsJoin(s, AdoptFile(conn, s.file), EditAndSettle(conn, edit), lib);
  }

  /** The mirror counts as saved and holds `edit`; the file holds `file`; and the
      next ingest of the file loses an owed write. */
  ghost predicate Masked<C, R>(s: State<C>, edit: C, file: C, lib: Library<C, R>) {
    && !Dirty(s) && s.content == edit && s.file == file
    && exists u :: u in s.unwritten && u in Step(s, IngestFile(file, 1, true), lib).lost
  }

  ghost predicate AboutToSettle<C>(s: State<C>, conn: nat) {
    conn in s.windows && s.windows[conn].phase.Settling?
  }

  /** A clean mirror's reconcile gets as far as having compared. */
  lemma FileAdopted<C, R>(s: State<C>, conn: nat, lib: Library<C, R>)
    requires Inv(s) && !Dirty(s)
    ensures LegalRun(s, AdoptFile(conn, s.file), lib)
    ensures var t := End(s, AdoptFile(conn, s.file), lib); AboutToSettle(t, conn) && t.file == s.file
  {
    var run: seq<Event<C, R>> := AdoptFile(conn, s.file);
    var s1 := Step(s, run[0], lib);
    var s2 := Step(s1, run[1], lib);
    var s3 := Step(s2, run[2], lib);
    assert s3.windows[conn].phase == DiskRead(s.file) && s3.content == s.file;
    RunThrough([s, s1, s2, s3, Step(s3, run[3], lib)], run, lib);
  }

  lemma EditSettledOver<C, R>(s: State<C>, conn: nat, edit: C, lib: Library<C, R>)
    requires AboutToSettle(s, conn)
    ensures LegalRun(s, EditAndSettle(conn, edit), lib)
    ensures Masked(End(s, EditAndSettle(conn, edit), lib), edit, s.file, lib)
  {
    var run: seq<Event<C, R>> := EditAndSettle(conn, edit);
    var s1 := Step(s, run[0], lib);
    assert AboutToSettle(s1, conn) && s1.mutationSeq in s1.unwritten;
    var s2 := Step(s1, run[1], lib);
    var s3 := Step(s2, run[2], lib);
    assert s1.mutationSeq in Step(s3, IngestFile(s.file, 1, true), lib).lost;
    RunThrough([s, s1, s2, s3], run, lib);
  }

  function SaveWithEdit<C, R>(conn: nat, edit: C): seq<Event<C, R>> {
    [BeginSave(conn), ProjectSave(conn), Mutate(edit, 1), WriteFile(conn), FinishAdoption(conn)]
  }

  function FactsAndSettle<C, R>(conn: nat): seq<Event<C, R>> {
    [RecordFacts(conn, 1), Count(conn), Settle(conn)]
  }

  /** From every clean state: a save that adopts key-derivation settings counts
      again after it, and masks an edit made since its projection. */
  lemma AdoptionCanMask<C, R>(s: State<C>, conn: nat, edit: C, lib: Library<C, R>)
    requires TrustInv(s) && !Dirty(s)
    ensures LegalRun(s, SaveWithEdit(conn, edit) + FactsAndSettle(conn), lib)
    ensures Masked(End(s, SaveWithEdit(conn, edit) + FactsAndSettle(conn), lib), edit, s.content, lib)
  {
    EditBesideSave(s, conn, edit, lib);
    FactsSettledOver(End(s, SaveWithEdit(conn, edit), lib), conn, s.mutationSeq + 1, lib);
    RunsJoin(s, SaveWithEdit(conn, edit), FactsAndSettle(conn), lib);
  }

  /** The save gets written, with the edit beside it. */
  lemma EditBesideSave<C, R>(s: State<C>, conn: nat, edit: C, lib: Library<C, R>)
    requires Inv(s)
    ensures LegalRun(s, SaveWithEdit(conn, edit), lib)
    ensures var t := End(s, SaveWithEdit(conn, edit), lib);
            AboutToSettle(t, conn) && s.mutationSeq + 1 in t.unwritten && t.content == edit && t.file == s.content
  {
    var run: seq<Event<C, R>> := SaveWithEdit(conn, edit);
    var s1 := Step(s, run[0], lib);
    var s2 := Step(s1, run[1], lib);
    var s3 := Step(s2, run[2], lib);
    var s4 := Step(s3, run[3], lib);
    assert s4.saves[conn] == Written(s.mutationSeq, s.mutationSeq, s.content) && s.mutationSeq + 1 in s4.unwritten;
    RunThrough([s, s1, s2, s3, s4, Step(s4, run[4], lib)], run, lib);
  }

  lemma FactsSettledOver<C, R>(s: State<C>, conn: nat, u: nat, lib: Library<C, R>)
    requires AboutToSettle(s, conn) && u in s.unwritten
    ensures LegalRun(s, FactsAndSettle(conn), lib)
    ensures Masked(End(s, FactsAndSettle(conn), lib), s.content, s.file, lib)
  {
    var run: seq<Event<C, R>> := FactsAndSettle(conn);
    var s1 := Step(s, run[0], lib);
    assert AboutToSettle(s1, conn);
    var s2 := Step(s1, run[1], lib);
    var s3 := Step(s2, run[2], lib);
    assert u in Step(s3, IngestFile(s.file, 1, true), lib).lost;
    RunThrough([s, s1, s2, s3], run, lib);
  }
}
