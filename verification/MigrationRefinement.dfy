/** The savepoint and commit machinery of `run_migration` refines a pure fold: each
    step merges its whole table, or changes nothing. */
module MigrationRefinement {
  import opened Options
  import opened MigrationSession
  import opened MigrationScript

  /** Rows that cannot be read are left out; one row the server refuses refuses all. */
  function LoadRows(srv: Server, cat: Catalog, t: Table, policy: Policy, rows: seq<Legacy>, now: int): Option<Catalog>
    decreases |rows|
  {
    if rows == [] then Some(cat)
    else
      match Convert(rows[0].source)
      case None => LoadRows(srv, cat, t, policy, rows[1..], now)
      case Some(f) =>
        match Put(srv, cat, t, rows[0].id, Record(f, now), policy)
        case None => None
        case Some(next) => LoadRows(srv, next, t, policy, rows[1..], now)
  }

  /** What a step would commit, or None if the server refuses any part of it. */
  function LoadTable(srv: Server, cat: Catalog, step: Step, now: int): Option<Catalog>
    requires step.source.Some? && step.source.value != []
  {
    var t, rows := step.table, step.source.value;
    var off := cat.(untriggered := cat.untriggered + {t});
    if step.kind == Untriggered && t !in srv.alterable then None
    else
      match LoadRows(srv, if step.kind == Untriggered then off else cat, t, PolicyOf(step.kind), rows, now)
      case None => None
      case Some(loaded) =>
        if MaxId(rows) != 0 && SequenceRefuses(srv, t, MaxId(rows)) then None
        else if step.kind == Untriggered then Some(loaded.(untriggered := loaded.untriggered - {t}))
        else Some(loaded)
  }

  function StepFold(srv: Server, cat: Catalog, step: Step, now: int): Catalog {
    if step.source.None? || step.source.value == [] then cat
    else
      match LoadTable(srv, cat, step, now)
      case None => cat
      case Some(loaded) => loaded
  }

  function RunFold(srv: Server, cat: Catalog, steps: seq<Step>, now: int): Catalog
    decreases |steps|
  {
    if steps == [] then cat else RunFold(srv, StepFold(srv, cat, steps[0], now), steps[1..], now)
  }

  lemma {:induction false} RowActionsAreGuardedInserts(t: Table, policy: Policy, rows: seq<Legacy>, now: int)
    ensures forall a | a in RowActions(t, policy, rows, now) :: a.Do? && a.guarded && a.stmt.Insert?
  {
    if rows != [] { RowActionsAreGuardedInserts(t, policy, rows[1..], now); }
  }

  lemma TableActionsLeaveSavepoints(step: Step, now: int)
    ensures LeavesSavepointsAlone(TableActions(step, now))
  {
    if step.source.Some? { RowActionsAreGuardedInserts(step.table, PolicyOf(step.kind), step.source.value, now); }
  }

  /** An aborted transaction swallows guarded inserts without further effect. */
  lemma {:induction false} AbortedRowsAreSkipped(srv: Server, s: Session, t: Table, policy: Policy, rows: seq<Legacy>,
                                                 now: int, tail: seq<Action>)
    requires s.aborted
    ensures RunBody(srv, s, RowActions(t, policy, rows, now) + tail) == RunBody(srv, s, tail)
    decreases |rows|
  {
    var acts := RowActions(t, policy, rows, now);
    if rows == [] {
      assert acts + tail == tail;
    } else {
      var rest := RowActions(t, policy, rows[1..], now);
      AbortedRowsAreSkipped(srv, s, t, policy, rows[1..], now, tail);
      match Convert(rows[0].source) {
        case None => assert acts + tail == rest + tail;
        case Some(f) => assert (acts + tail)[1..] == rest + tail;
      }
    }
  }

  /** The row loop, seen from the statement after it. */
  lemma {:induction false} RowLoop(srv: Server, s: Session, t: Table, policy: Policy, rows: seq<Legacy>, now: int,
                                   tail: seq<Action>)
    returns (e: Session)
    requires !s.aborted
    ensures RunBody(srv, s, RowActions(t, policy, rows, now) + tail) == RunBody(srv, e, tail)
    ensures e.committed == s.committed && e.savepoints == s.savepoints && e.sequences == s.sequences
    ensures match LoadRows(srv, s.working, t, policy, rows, now)
            case None => e.aborted
            case Some(cat) => e == s.(working := cat)
    decreases |rows|
  {
    var acts := RowActions(t, policy, rows, now);
    if rows == [] {
      assert acts + tail == tail;
      e := s;
    } else {
      var rest := RowActions(t, policy, rows[1..], now);
      match Convert(rows[0].source) {
        case None =>
          assert acts + tail == rest + tail;
          e := RowLoop(srv, s, t, policy, rows[1..], now, tail);
        case Some(f) =>
          assert (acts + tail)[1..] == rest + tail;
          match Put(srv, s.working, t, rows[0].id, Record(f, now), policy) {
            case None =>
              e := s.(aborted := true);
              AbortedRowsAreSkipped(srv, e, t, policy, rows[1..], now, tail);
            case Some(next) =>
              e := RowLoop(srv, s.(working := next), t, policy, rows[1..], now, tail);
          }
      }
    }
  }

  function SequencesAfter(srv: Server, sequences: map<Table, int>, t: Table, max: int): map<Table, int> {
    if max != 0 && t in srv.serial then sequences[t := max] else sequences
  }

  /** setval and commit. */
  lemma RunCommit(srv: Server, s: Session, t: Table, max: int)
    ensures var r := RunBody(srv, s, ClosingActions(t, max));
            if max != 0 && (s.aborted || SequenceRefuses(srv, t, max))
            then r.raised && r.session == s.(aborted := true)
            else !r.raised && r.session == Commit(s.(sequences := SequencesAfter(srv, s.sequences, t, max)))
  {
    var closing := ClosingActions(t, max);
    assert max != 0 ==> closing[1..] == [DoCommit];
    assert [DoCommit][1..] == [];
  }

  /** The statements after the row loop. */
  lemma RunClosing(srv: Server, s: Session, step: Step, max: int)
    ensures var r := RunBody(srv, s, TriggersOn(step) + ClosingActions(step.table, max));
            var cat := if step.kind == Untriggered
                       then s.working.(untriggered := s.working.untriggered - {step.table})
                       else s.working;
            var refused := s.aborted || (step.kind == Untriggered && step.table !in srv.alterable)
                           || (max != 0 && SequenceRefuses(srv, step.table, max));
            && (!refused ==> !r.raised && r.session.committed == r.session.working == cat
                             && r.session.savepoints == [] && !r.session.aborted
                             && r.session.sequences == SequencesAfter(srv, s.sequences, step.table, max))
            && (refused ==> r.session.committed == s.committed && r.session.sequences == s.sequences
                            && (r.raised || (r.session.working == s.committed && r.session.savepoints == []
                                              && !r.session.aborted)))
  {
    var closing := ClosingActions(step.table, max);
    var on := TriggersOn(step);
    if step.kind == Untriggered { assert (on + closing)[1..] == closing; } else { assert on + closing == closing; }
    var ready := if step.kind == Untriggered then Execute(srv, s, on[0].stmt).session else s;
    RunCommit(srv, ready, step.table, max);
  }

  /** Whatever the constraints refuse, one wrapped step commits exactly its fold:
      the whole table, or nothing. It leaves the connection idle, and it is
      reported OK just when its source table was read and found empty: the commit
      inside a table function has destroyed the savepoint that RELEASE asks for. */
  lemma StepRefinesFold(srv: Server, s: Session, step: Step, now: int)
    requires Idle(s)
    ensures var w := WrapStep(srv, s, step.name, TableActions(step, now));
            && Idle(w.session)
            && w.session.committed == StepFold(srv, s.committed, step, now)
            && (!w.raised <==> step.source == Some([]))
            && w.session.sequences ==
               if step.source.None? || step.source.value == [] || LoadTable(srv, s.committed, step, now).None?
               then s.sequences
               else SequencesAfter(srv, s.sequences, step.table, MaxId(step.source.value))
  {
    var body := TableActions(step, now);
    TableActionsLeaveSavepoints(step, now);
    WrapStepIsolates(srv, s, step.name, body);
    if step.source.Some? && step.source.value != [] {
      var begun := s.(savepoints := [Savepoint(step.name, s.working)]);
      var rows := step.source.value;
      var tail := TriggersOn(step) + ClosingActions(step.table, MaxId(rows));
      var rowsAndTail := RowActions(step.table, PolicyOf(step.kind), rows, now) + tail;
      var untriggered := step.kind == Untriggered;
      if untriggered { assert body[1..] == rowsAndTail; } else { assert body == rowsAndTail; }
      if !(untriggered && step.table !in srv.alterable) {
        var ready := if untriggered then Execute(srv, begun, DisableTriggers(step.table)).session else begun;
        assert RunBody(srv, begun, body) == RunBody(srv, ready, rowsAndTail);
        var e := RowLoop(srv, ready, step.table, PolicyOf(step.kind), rows, now, tail);
        RunClosing(srv, e, step, MaxId(rows));
      }
    } else if step.source.None? {
      assert body[1..] == [];
    }
  }

  /** The whole run ends idle, with the fold of its steps committed. */
  lemma {:induction false} RunRefinesFold(srv: Server, s: Session, steps: seq<Step>, now: int)
    requires Idle(s)
    ensures Idle(RunSteps(srv, s, steps, now))
    ensures RunSteps(srv, s, steps, now).committed == RunFold(srv, s.committed, steps, now)
    decreases |steps|
  {
    if steps != [] {
      StepRefinesFold(srv, s, steps[0], now);
      RunRefinesFold(srv, WrapStep(srv, s, steps[0].name, TableActions(steps[0], now)).session, steps[1..], now);
    }
  }

  /** `run_migration` from a fresh connection: every step is attempted, the summary
      has one entry per step in order, and the fold is committed. */
  method RunMigration(pg: Connection, steps: seq<Step>, now: int)
      returns (summary: seq<Entry>, totalIns: nat, totalSkp: nat)
    requires Idle(pg.View())
    modifies pg
    ensures Idle(pg.View())
    ensures pg.committed == RunFold(pg.server, old(pg.committed), steps, now)
    ensures |summary| == |steps|
    ensures forall i | 0 <= i < |steps| ::
              summary[i].name == steps[i].name && (summary[i].ok <==> steps[i].source == Some([]))
  {
    summary, totalIns, totalSkp := [], 0, 0;
    var i := 0;
    while i < |steps|
      invariant 0 <= i <= |steps| && |summary| == i
      invariant Idle(pg.View())
      invariant RunFold(pg.server, old(pg.committed), steps, now) == RunFold(pg.server, pg.committed, steps[i..], now)
      invariant forall k | 0 <= k < i ::
                  summary[k].name == steps[k].name && (summary[k].ok <==> steps[k].source == Some([]))
    {
      StepRefinesFold(pg.server, pg.View(), steps[i], now);
      assert steps[i..][1..] == steps[i + 1..];
      var entry := RunStep(pg, steps[i], now);
      summary := summary + [entry];
      if entry.ok {
        totalIns, totalSkp := totalIns + entry.inserted, totalSkp + entry.skipped;
      }
      i := i + 1;
    }
  }
}
