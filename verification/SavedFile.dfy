/** When a mirror that counts as saved has its contents in the file. */
module SavedFile {
  import opened Order
  import opened Watermark
  import opened Trust

  ghost predicate FileAgrees<C, R>(s: State<C>, lib: Library<C, R>) {
    lib.digest(s.file) == lib.digest(s.content)
  }

  /** A mirror that counts as saved has its contents in the file. */
  ghost predicate Held<C, R>(s: State<C>, lib: Library<C, R>) {
    !Dirty(s) ==> FileAgrees(s, lib)
  }

  /** The counter's present value is persisted, or about to be by a connection that
      has nothing left to do but record it. */
  ghost predicate Credited<C>(s: State<C>) {
    || !Dirty(s)
    || (exists conn :: conn in s.saves && s.saves[conn].Written? && s.saves[conn].seqAtStart == s.mutationSeq)
    || (exists conn :: conn in s.windows && s.windows[conn].phase == Counted(s.mutationSeq))
  }

  ghost predicate Robust<C, R>(s: State<C>, lib: Library<C, R>) {
    Credited(s) ==> FileAgrees(s, lib)
  }

  predicate Records<C, R>(e: Event<C, R>) {
    e.FinishSave? || e.FinishAdoption? || e.Settle?
  }

  /** Robust means: held now, and whichever connection records next. */
  lemma RobustMeans<C, R>(s: State<C>, lib: Library<C, R>)
    requires Inv(s)
    ensures Robust(s, lib) <==> Held(s, lib) && forall e: Event<C, R> :: Records(e) ==> Held(Step(s, e, lib), lib)
  {
    forall conn | conn in s.saves ensures SaveSound(s, s.saves[conn]) {
    }
    forall conn | conn in s.windows ensures WindowSound(s, s.windows[conn]) {
    }
    if !Robust(s, lib) && Held(s, lib) {
      if conn :| conn in s.saves && s.saves[conn].Written? && s.saves[conn].seqAtStart == s.mutationSeq {
        assert Records<C, R>(FinishSave(conn)) && !Held(Step(s, FinishSave(conn), lib), lib);
      } else {
        var conn :| conn in s.windows && s.windows[conn].phase == Counted(s.mutationSeq);
        assert Records<C, R>(Settle(conn)) && !Held(Step(s, Settle(conn), lib), lib);
      }
    }
  }

  /** The step puts other contents in the file than those that count as saved, or
      counts contents as saved that the file does not hold. */
  ghost predicate Overrides<C, R>(s: State<C>, e: Event<C, R>, lib: Library<C, R>) {
    match e
    case WriteFile(conn) =>
      Credited(s) && conn in s.saves && s.saves[conn].Projected? && lib.digest(s.saves[conn].captured) != lib.digest(s.content)
    case ExternalWrite(content) => Credited(s) && lib.digest(content) != lib.digest(s.content)
    case IngestFile(content, _, settles) => !Dirty(s) && settles && lib.digest(content) != lib.digest(s.file)
    case Count(conn) => conn in s.windows && s.windows[conn].phase.Settling? && !FileAgrees(s, lib)
    case _ => false
  }

  lemma WroteIsUncredited<C>(s: State<C>, who: Option<nat>, content: C, rows: nat, owed: bool)
    requires Inv(s) && rows > 0
    ensures !Credited(Wrote(s, who, content, rows, owed))
  {
    var t := Wrote(s, who, content, rows, owed);
    forall conn | conn in t.saves && t.saves[conn].Written? ensures t.saves[conn].seqAtStart < t.mutationSeq {
      assert SaveSound(s, s.saves[conn]);
    }
    forall conn | conn in t.windows ensures t.windows[conn].phase != Counted(t.mutationSeq) {
      assert WindowSound(s, s.windows[conn]);
    }
  }

  /** A row write takes the credit away, so it keeps robustness. */
  lemma WriteStepIsRobust<C, R>(s: State<C>, e: Event<C, R>, lib: Library<C, R>)
    requires Inv(s) && Legal(s, e) && Robust(s, lib) && (e.Mutate? || e.Adopt? || e.RecordFacts? || e.ApplyResolution?)
    ensures Robust(Step(s, e, lib), lib)
  {
    match e
    case Mutate(content, writes) =>
      if writes > 0 { WroteIsUncredited(s, None, content, writes, true); }
    case Adopt(conn, content, writes) =>
      if writes > 0 {
        WroteIsUncredited(s, if conn in s.windows && s.windows[conn].phase.DiskRead? then Some(conn) else None, content, writes, true);
      }
    case RecordFacts(conn, writes) =>
      if writes > 0 {
        var own := conn in s.windows && s.windows[conn].phase.Settling?;
        WroteIsUncredited(s, if own then Some(conn) else None, s.content, writes, !own);
      }
    case ApplyResolution(id, resolution, writes) =>
      if id in s.stashes && s.mutationSeq == s.stashes[id].projectedAtSeq {
        var taken := s.(stashes := s.stashes - {id}, consumed := s.consumed + [id]);
        StashesKeepInv(s, s.opening, s.stashes - {id}, s.nextId, s.consumed + [id]);
        WroteIsUncredited(taken, None, lib.merge(s.stashes[id].local, s.stashes[id].remote, resolution), writes, true);
      }
  }

  lemma IngestIsRobust<C, R>(s: State<C>, content: C, writes: nat, settles: bool, lib: Library<C, R>)
    requires Inv(s) && !Dirty(s) && writes > 0
    ensures Robust(Step(s, IngestFile(content, writes, settles), lib), lib) <==> (settles ==> lib.digest(content) == lib.digest(s.file))
  {
    var given := s.(unwritten := {}, lost := s.lost + s.unwritten, windows := Relieved(s.windows));
    GivingKeepsInv(s, {}, s.lost + s.unwritten);
    WroteIsUncredited(given, None, content, writes, !settles);
  }

  lemma WriteFileIsRobust<C, R>(s: State<C>, conn: nat, lib: Library<C, R>)
    requires Inv(s) && Robust(s, lib)
    ensures Robust(Step(s, WriteFile(conn), lib), lib) <==> !Overrides(s, WriteFile(conn), lib)
  {
    if conn in s.saves && s.saves[conn].Projected? {
      assert SaveSound(s, s.saves[conn]);
      var t := Step(s, WriteFile(conn), lib);
      if Credited(s) {
        StillCredited(s, t, conn);
      }
      if Credited(t) && s.saves[conn].seqAtStart != s.mutationSeq {
        StillCredited(t, s, conn);
      }
    }
  }

  /** Writing the file leaves everyone else's credit as it was. */
  lemma StillCredited<C>(s: State<C>, t: State<C>, conn: nat)
    requires Credited(s) && t.mutationSeq == s.mutationSeq && t.persistedSeq == s.persistedSeq
    requires forall k :: k in s.windows ==> k in t.windows && t.windows[k].phase == s.windows[k].phase
    requires forall k :: k in s.saves && k != conn ==> k in t.saves && t.saves[k] == s.saves[k]
    requires conn in s.saves && s.saves[conn].Written? ==> s.saves[conn].seqAtStart != s.mutationSeq
    ensures Credited(t)
  {
  }

  /** No step but a write or a count gives credit. */
  lemma NoNewCredit<C>(s: State<C>, t: State<C>)
    requires Inv(s) && Credited(t) && t.mutationSeq == s.mutationSeq
    requires forall conn :: conn in t.saves && t.saves[conn].Written? ==> conn in s.saves && s.saves[conn] == t.saves[conn]
    requires forall conn :: conn in t.windows && t.windows[conn].phase.Counted? ==>
               conn in s.windows && s.windows[conn].phase == t.windows[conn].phase
    requires || t.persistedSeq == s.persistedSeq
             || (exists conn :: conn in s.saves && s.saves[conn].Written? && s.saves[conn].seqAtStart == t.persistedSeq)
             || (exists conn :: conn in s.windows && s.windows[conn].phase == Counted(t.persistedSeq))
    ensures Credited(s)
  {
    if conn :| conn in s.saves && s.saves[conn].Written? && s.saves[conn].seqAtStart == t.persistedSeq {
      assert SaveSound(s, s.saves[conn]);
    }
    if conn :| conn in s.windows && s.windows[conn].phase == Counted(t.persistedSeq) {
      assert WindowSound(s, s.windows[conn]);
    }
  }

  lemma SaveStepIsRobust<C, R>(s: State<C>, e: Event<C, R>, lib: Library<C, R>)
    requires Inv(s) && Robust(s, lib) && (e.BeginSave? || e.ProjectSave? || e.FinishSave? || e.FinishAdoption?)
    ensures Robust(Step(s, e, lib), lib)
  {
    var t := Step(s, e, lib);
    if Credited(t) && t != s {
      NoNewCredit(s, t);
    }
  }

  lemma WindowStepIsRobust<C, R>(s: State<C>, e: Event<C, R>, lib: Library<C, R>)
    requires Inv(s) && Robust(s, lib) && (e.BeginReconcile? || e.ReadDisk?)
    ensures Robust(Step(s, e, lib), lib)
  {
    var t := Step(s, e, lib);
    if Credited(t) && t != s {
      NoNewCredit(s, t);
    }
  }

  lemma CompareIsRobust<C, R>(s: State<C>, conn: nat, lib: Library<C, R>)
    requires Inv(s) && Robust(s, lib)
    ensures Robust(Step(s, Compare(conn), lib), lib)
  {
    var t := Step(s, Compare(conn), lib);
    if Credited(t) && conn in s.windows && s.windows[conn].phase.DiskRead? {
      forall k | k in t.windows && t.windows[k].phase.Counted? ensures k in s.windows && s.windows[k].phase == t.windows[k].phase {
      }
      NoNewCredit(s, t);
    }
  }

  lemma SettleIsRobust<C, R>(s: State<C>, conn: nat, lib: Library<C, R>)
    requires Inv(s) && Robust(s, lib)
    ensures Robust(Step(s, Settle(conn), lib), lib)
  {
    var t := Step(s, Settle(conn), lib);
    if Credited(t) && conn in s.windows && s.windows[conn].phase.Counted? {
      assert s.windows[conn].phase == Counted(t.persistedSeq);
      NoNewCredit(s, t);
    }
  }

  lemma CountIsRobust<C, R>(s: State<C>, conn: nat, lib: Library<C, R>)
    requires Robust(s, lib)
    ensures Robust(Step(s, Count(conn), lib), lib) <==> !Overrides(s, Count(conn), lib)
  {
    var t := Step(s, Count(conn), lib);
    if conn in s.windows && s.windows[conn].phase.Settling? {
      assert t.windows[conn].phase == Counted(t.mutationSeq);
    }
  }

  /** A step keeps robustness exactly unless it overrides. */
  lemma StepRobustExactly<C, R>(s: State<C>, e: Event<C, R>, lib: Library<C, R>)
    requires Inv(s) && Legal(s, e) && Robust(s, lib)
    ensures Robust(Step(s, e, lib), lib) <==> !Overrides(s, e, lib)
  {
    match e
    case Mutate(_, _) => WriteStepIsRobust(s, e, lib);
    case Adopt(_, _, _) => WriteStepIsRobust(s, e, lib);
    case RecordFacts(_, _) => WriteStepIsRobust(s, e, lib);
    case ApplyResolution(_, _, _) => WriteStepIsRobust(s, e, lib);
    case WriteFile(conn) => WriteFileIsRobust(s, conn, lib);
    case Count(conn) => CountIsRobust(s, conn, lib);
    case ExternalWrite(content) =>
    case IngestFile(content, writes, settles) =>
      if !Dirty(s) {
        IngestIsRobust(s, content, writes, settles, lib);
      }
    case BeginSave(_) => SaveStepIsRobust(s, e, lib);
    case ProjectSave(_) => SaveStepIsRobust(s, e, lib);
    case FinishSave(_) => SaveStepIsRobust(s, e, lib);
    case FinishAdoption(_) => SaveStepIsRobust(s, e, lib);
    case BeginResolver(_) =>
    case StashResolver(_, _) =>
    case Settle(conn) => SettleIsRobust(s, conn, lib);
    case Compare(conn) => CompareIsRobust(s, conn, lib);
    case _ => WindowStepIsRobust(s, e, lib);
  }

  ghost predicate AlwaysRobust<C, R>(s: State<C>, run: seq<Event<C, R>>, lib: Library<C, R>)
    decreases run
  {
    Robust(s, lib) && (run == [] || AlwaysRobust(Step(s, run[0], lib), run[1..], lib))
  }

  ghost predicate NeverOverrides<C, R>(s: State<C>, run: seq<Event<C, R>>, lib: Library<C, R>)
    decreases run
  {
    run == [] || (!Overrides(s, run[0], lib) && NeverOverrides(Step(s, run[0], lib), run[1..], lib))
  }

  /** All along a run, whoever records next, a mirror that counts as saved has its
      contents in the file: exactly if no step of the run overrides. */
  lemma {:induction false} RobustExactly<C, R>(s: State<C>, run: seq<Event<C, R>>, lib: Library<C, R>)
    requires Inv(s) && Robust(s, lib) && LegalRun(s, run, lib)
    ensures AlwaysRobust(s, run, lib) <==> NeverOverrides(s, run, lib)
    ensures NeverOverrides(s, run, lib) ==> Held(End(s, run, lib), lib)
    decreases run
  {
    if run != [] {
      StepKeepsInv(s, run[0], lib);
      StepRobustExactly(s, run[0], lib);
      if !Overrides(s, run[0], lib) {
        RobustExactly(Step(s, run[0], lib), run[1..], lib);
      }
    }
  }

  // ----- saves in order

  /** No other connection has more to its credit than the save that writes now. */
  ghost predicate InOrder<C>(s: State<C>, conn: nat) {
    conn in s.saves
    && s.persistedSeq <= s.saves[conn].seqAtStart
    && (forall k :: k in s.saves && s.saves[k].Written? ==> s.saves[k].seqAtStart <= s.saves[conn].seqAtStart)
    && (forall k :: k in s.windows && s.windows[k].phase.Counted? ==> s.windows[k].phase.count <= s.saves[conn].seqAtStart)
  }

  /** A save that writes no capture older than one already written, or recorded,
      never overrides. */
  lemma InOrderIsSafe<C, R>(s: State<C>, conn: nat, lib: Library<C, R>)
    requires Inv(s) && InOrder(s, conn)
    ensures !Overrides(s, WriteFile(conn), lib)
  {
    assert SaveSound(s, s.saves[conn]);
  }

  predicate SaveStep<C, R>(e: Event<C, R>) {
    e.BeginSave? || e.ProjectSave? || e.WriteFile? || e.FinishSave?
  }

  /** A capture in flight that is not what the mirror holds. */
  ghost predicate Stale<C, R>(s: State<C>, conn: nat, lib: Library<C, R>) {
    conn in s.saves && s.saves[conn].Projected? && lib.digest(s.saves[conn].captured) != lib.digest(s.content)
  }

  function LosingRun<C, R>(stale: nat, other: nat): seq<Event<C, R>> {
    [BeginSave(other), ProjectSave(other), WriteFile(other), WriteFile(stale), FinishSave(stale), FinishSave(other)]
  }

  /** One stale capture in flight is enough: a second save overtakes it, and is
      recorded after it. The mirror ends up saved, with the stale capture in the
      file and neither save in flight. */
  lemma StaleCaptureCanLose<C, R>(s: State<C>, stale: nat, other: nat, lib: Library<C, R>)
    requires Inv(s) && Stale(s, stale, lib) && other != stale
    ensures LegalRun(s, LosingRun(stale, other), lib)
    ensures var end := End(s, LosingRun(stale, other), lib);
            && !Dirty(end) && !FileAgrees(end, lib) && end.content == s.content && end.file == s.saves[stale].captured
            && end.saves == s.saves - {stale, other}
  {
    var states := Overtake(s, stale, other, lib);
    var t := states[4];
    var t5 := Step(t, FinishSave(stale), lib);
    var t6 := Step(t5, FinishSave(other), lib);
    assert t6.saves == s.saves - {stale, other};
    RunThrough(states + [t5, t6], LosingRun(stale, other), lib);
  }

  lemma Overtake<C, R>(s: State<C>, stale: nat, other: nat, lib: Library<C, R>) returns (states: seq<State<C>>)
    requires Stale(s, stale, lib) && other != stale
    ensures |states| == 5 && states[0] == s
    ensures states[1] == Step(states[0], BeginSave(other), lib) && states[2] == Step(states[1], ProjectSave(other), lib)
    ensures states[3] == Step(states[2], WriteFile(other), lib) && states[4] == Step(states[3], WriteFile(stale), lib)
    ensures var t := states[4];
            && t.file == s.saves[stale].captured && t.content == s.content && t.mutationSeq == s.mutationSeq
            && t.saves == s.saves[other := Written(s.mutationSeq, s.mutationSeq, s.content)]
                                 [stale := Written(s.saves[stale].seqAtStart, s.saves[stale].at, s.saves[stale].captured)]
  {
    var s1 := Step(s, BeginSave(other), lib);
    var s2 := Step(s1, ProjectSave(other), lib);
    var s3 := Step(s2, WriteFile(other), lib);
    states := [s, s1, s2, s3, Step(s3, WriteFile(stale), lib)];
  }

  /** Two captures in flight that differ always have a losing continuation. */
  lemma TwoCapturesCanLose<C, R>(s: State<C>, a: nat, b: nat, lib: Library<C, R>) returns (run: seq<Event<C, R>>)
    requires Inv(s) && a in s.saves && b in s.saves && s.saves[a].Projected? && s.saves[b].Projected?
    requires lib.digest(s.saves[a].captured) != lib.digest(s.saves[b].captured)
    ensures LegalRun(s, run, lib) && !Held(End(s, run, lib), lib) && forall i :: 0 <= i < |run| ==> SaveStep(run[i])
  {
    var stale, other := if Stale(s, a, lib) then a else b, if Stale(s, a, lib) then b else a;
    StaleCaptureCanLose(s, stale, other, lib);
    run := LosingRun(stale, other);
  }

  lemma {:induction false} FreshSavesAreRobust<C, R>(s: State<C>, run: seq<Event<C, R>>, lib: Library<C, R>)
    requires Inv(s) && Robust(s, lib) && (forall conn :: !Stale(s, conn, lib)) && forall i :: 0 <= i < |run| ==> SaveStep(run[i])
    ensures LegalRun(s, run, lib) && AlwaysRobust(s, run, lib)
    decreases run
  {
    if run != [] {
      StepKeepsInv(s, run[0], lib);
      StepRobustExactly(s, run[0], lib);
      assert !Stale(s, run[0].conn, lib);
      var t := Step(s, run[0], lib);
      forall conn ensures !Stale(t, conn, lib) {
        assert !Stale(s, conn, lib);
      }
      FreshSavesAreRobust(t, run[1..], lib);
    }
  }

  /** Over all continuations by saves, any number of them at once: the file can be
      relied on exactly if no stale capture is in flight. */
  lemma SavesRobustExactly<C(!new), R(!new)>(s: State<C>, lib: Library<C, R>)
    requires Inv(s) && Robust(s, lib)
    ensures (forall run: seq<Event<C, R>> :: (forall i :: 0 <= i < |run| ==> SaveStep(run[i])) ==> AlwaysRobust(s, run, lib))
              <==> forall conn :: !Stale(s, conn, lib)
  {
    if stale: nat :| Stale(s, stale, lib) {
      var run: seq<Event<C, R>> := LosingRun(stale, stale + 1);
      StaleCaptureCanLose(s, stale, stale + 1, lib);
      if AlwaysRobust(s, run, lib) {
        AlwaysRobustEnds(s, run, lib);
      }
      assert forall i :: 0 <= i < |run| ==> SaveStep(run[i]);
    } else {
      forall run: seq<Event<C, R>> | forall i :: 0 <= i < |run| ==> SaveStep(run[i]) ensures AlwaysRobust(s, run, lib) {
        FreshSavesAreRobust(s, run, lib);
      }
    }
  }

  lemma {:induction false} AlwaysRobustEnds<C, R>(s: State<C>, run: seq<Event<C, R>>, lib: Library<C, R>)
    requires AlwaysRobust(s, run, lib)
    ensures Robust(End(s, run, lib), lib)
    decreases run
  {
    if run != [] {
      AlwaysRobustEnds(Step(s, run[0], lib), run[1..], lib);
    }
  }

  /** From a fresh mirror: a save captures it, an edit lands, a second save
      overtakes the first and is recorded after it. The mirror counts as saved and
      the file holds what was there before the edit. */
  lemma OverlappingSavesLoseTheFile<C, R>(start: C, edit: C, lib: Library<C, R>)
    requires lib.digest(start) != lib.digest(edit)
    ensures var run: seq<Event<C, R>> := [BeginSave(1), ProjectSave(1), Mutate(edit, 1)] + LosingRun(1, 2);
            && LegalRun(Initial(start), run, lib)
            && var end := End(Initial(start), run, lib);
               !Dirty(end) && end.content == edit && end.file == start && end.saves == map[]
  {
    var early: seq<Event<C, R>> := [BeginSave(1), ProjectSave(1), Mutate(edit, 1)];
    var s0 := Initial(start);
    var s1 := Step(s0, early[0], lib);
    var s2 := Step(s1, early[1], lib);
    var s3 := Step(s2, early[2], lib);
    RunThrough([s0, s1, s2, s3], early, lib);
    RunKeepsInv(s0, early, lib);
    assert s3.saves == map[1 := Projected(0, 0, start)];
    StaleCaptureCanLose(s3, 1, 2, lib);
    assert s3.saves - {1, 2} == map[];
    RunsJoin(s0, early, LosingRun(1, 2), lib);
  }

  // ----- one saver at a time

  /** One saver at a time, no other program writing the file, and ingests of what
      the file holds. */
  predicate Exclusive<C, R>(s: State<C>, e: Event<C, R>, lib: Library<C, R>) {
    match e
    case BeginSave(_) => s.saves == map[]
    case ExternalWrite(_) => false
    case IngestFile(content, _, _) => s.saves == map[] && lib.digest(content) == lib.digest(s.file)
    case BeginReconcile(_) => false
    case FinishAdoption(_) => false
    case _ => true
  }

  ghost predicate ExclusiveRun<C, R>(s: State<C>, run: seq<Event<C, R>>, lib: Library<C, R>)
    decreases run
  {
    run == [] || (Legal(s, run[0]) && Exclusive(s, run[0], lib) && ExclusiveRun(Step(s, run[0], lib), run[1..], lib))
  }

  ghost predicate Alone<C>(s: State<C>) {
    && s.windows == map[]
    && (forall conn :: conn in s.saves ==> s.persistedSeq <= s.saves[conn].seqAtStart)
    && (forall conn, other :: conn in s.saves && other in s.saves ==> conn == other)
  }

  lemma AloneStays<C, R>(s: State<C>, e: Event<C, R>, lib: Library<C, R>)
    requires Inv(s) && Alone(s) && Legal(s, e) && Exclusive(s, e, lib)
    ensures Alone(Step(s, e, lib)) && !Overrides(s, e, lib)
  {
    if e.WriteFile? && e.conn in s.saves {
      InOrderIsSafe(s, e.conn, lib);
    }
  }

  /** Then no step overrides, and a mirror that counts as saved has its contents in
      the file. */
  lemma {:induction false} ExclusiveNeverOverrides<C, R>(s: State<C>, run: seq<Event<C, R>>, lib: Library<C, R>)
    requires Inv(s) && Alone(s) && ExclusiveRun(s, run, lib)
    ensures LegalRun(s, run, lib) && NeverOverrides(s, run, lib)
    decreases run
  {
    if run != [] {
      AloneStays(s, run[0], lib);
      StepKeepsInv(s, run[0], lib);
      ExclusiveNeverOverrides(Step(s, run[0], lib), run[1..], lib);
    }
  }

  lemma ExclusiveRunsAreSafe<C, R>(start: C, run: seq<Event<C, R>>, lib: Library<C, R>)
    requires ExclusiveRun(Initial(start), run, lib)
    ensures AlwaysRobust(Initial(start), run, lib) && Held(End(Initial(start), run, lib), lib)
  {
    ExclusiveNeverOverrides(Initial(start), run, lib);
    RobustExactly(Initial(start), run, lib);
  }
}
