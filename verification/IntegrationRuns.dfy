/** Runs of registrations and unregistrations: the files that they leave alone, and what the
    query answers after them. */
module IntegrationRuns {
  import opened Payload
  import opened Files
  import opened DeployPaths
  import opened IntegrationManager
  import opened IntegrationTheorems

  datatype Operation = Register(app: AppImage) | Unregister(path: string)

  function PathOf(op: Operation): string {
    match op
    case Register(app) => app.path
    case Unregister(path) => path
  }

  /** No operation is about an AppImage whose id is in p. */
  ghost predicate Foreign(env: Environment, operations: seq<Operation>, p: string) {
    forall op <- operations :: !Contains(p, HintOf(env, PathOf(op)))
  }

  /** Over every run, with any failures on the way, the files that carry none of the ids are
      unchanged, wherever they are. */
  method Run(manager: IntegrationManager, operations: seq<Operation>, fs: FileSystem)
    requires manager.home != ""
    requires forall op <- operations :: op.Register? ==> op.app.Readable()
    modifies fs
    ensures forall p | Foreign(manager.env, operations, p) :: SameAt(fs.files, old(fs.files), p)
    ensures State(fs.files, fs.count)
            == RunOf(manager.env, manager.home, operations, old(State(fs.files, fs.count)), fs.faults)
  {
    hide Unregistered, OthersUntouched, HintOf, Contains, IsRegistered, IntegrationOf, Carry, IconsManaged;
    ghost var start := State(fs.files, fs.count);
    for i := 0 to |operations|
      invariant forall p | Foreign(manager.env, operations, p) :: SameAt(fs.files, old(fs.files), p)
      invariant State(fs.files, fs.count) == RunOf(manager.env, manager.home, operations[..i], start, fs.faults)
    {
      assert operations[..i + 1][..i] == operations[..i];
      ghost var before := fs.files;
      match operations[i] {
        case Register(app) =>
          RegistrationIsTransactional(manager.env, manager.home, app, before, fs.faults, fs.count);
          var _ := manager.RegisterAppImage(app, fs);
        case Unregister(path) =>
          UnregisteredLeavesForeign(before, manager.home, HintOf(manager.env, path));
          manager.UnregisterAppImage(path, fs);
      }
      ForeignIsUntouched(fs.files, before, manager.env, operations, i);
    }
    assert operations[..|operations|] == operations;
  }

  lemma UnregisteredLeavesForeign(files: FileMap, home: string, hint: string)
    ensures OthersUntouched(Unregistered(files, home, hint), files, hint)
  {
    hide Contains, Managed;
  }

  lemma ForeignIsUntouched(files: FileMap, before: FileMap, env: Environment, operations: seq<Operation>, i: nat)
    requires i < |operations| && OthersUntouched(files, before, HintOf(env, PathOf(operations[i])))
    ensures forall p | Foreign(env, operations, p) :: SameAt(files, before, p)
  {
    hide HintOf, Contains;
    assert operations[i] in operations;
  }

  // What the query answers after a run

  datatype State = State(files: FileMap, count: nat)

  ghost function StepOf(env: Environment, home: string, op: Operation, s: State, faults: Faults): State {
    match op
    case Register(app) =>
      State(Registered(env, home, app, s.files, faults, s.count),
            Carry(s.files, IntegrationOf(env, home, app).plan, faults, s.count).count)
    case Unregister(path) => State(Unregistered(s.files, home, HintOf(env, path)), s.count)
  }

  ghost function RunOf(env: Environment, home: string, operations: seq<Operation>, s: State, faults: Faults): State {
    if operations == [] then s
    else
      var front := operations[..|operations| - 1];
      StepOf(env, home, operations[|operations| - 1], RunOf(env, home, front, s, faults), faults)
  }

  function OpHint(env: Environment, op: Operation): string { HintOf(env, PathOf(op)) }

  ghost predicate PlanAvoids(env: Environment, home: string, op: Operation, hint: string) {
    op.Register? ==> forall w <- IntegrationOf(env, home, op.app).plan :: !Contains(w.path, hint)
  }

  /** The id is in no initial file, in no path that an AppImage with another id writes, and no
      other id is in a path that the AppImage with this one writes. */
  ghost predicate Apart(env: Environment, home: string, operations: seq<Operation>, hint: string, before: FileMap) {
    && (forall p <- before :: !Contains(p, hint))
    && (forall op <- operations | OpHint(env, op) != hint :: PlanAvoids(env, home, op, hint))
    && (forall op, other | op in operations && other in operations && OpHint(env, op) == hint != OpHint(env, other) ::
          PlanAvoids(env, home, op, OpHint(env, other)))
  }

  /** The last operation with this id is a registration, and it succeeded. */
  ghost predicate LastSucceeded(env: Environment, home: string, operations: seq<Operation>, s: State, faults: Faults, hint: string) {
    exists i :: 0 <= i < |operations| && LastSuccessAt(env, home, operations, s, faults, hint, i)
  }

  ghost predicate LastSuccessAt(env: Environment, home: string, operations: seq<Operation>, s: State, faults: Faults, hint: string, i: nat)
    requires i < |operations|
  {
    && operations[i].Register? && OpHint(env, operations[i]) == hint
    && (var at := RunOf(env, home, operations[..i], s, faults);
        Succeeds(env, home, operations[i].app, at.files, faults, at.count))
    && forall j | i < j < |operations| :: OpHint(env, operations[j]) != hint
  }

  /** A file with the id was written by the AppImage with the id, so no other id is in its path. */
  ghost predicate OthersAbsent(env: Environment, operations: seq<Operation>, hint: string, files: FileMap) {
    forall p <- files, op <- operations | Contains(p, hint) && OpHint(env, op) != hint :: !Contains(p, OpHint(env, op))
  }

  /** One step leaves the files with the id as they are, or is about it. */
  lemma StepOfOther(env: Environment, home: string, op: Operation, s: State, faults: Faults, hint: string)
    requires OpHint(env, op) != hint && PlanAvoids(env, home, op, hint)
    requires forall p <- s.files | Contains(p, hint) :: !Contains(p, OpHint(env, op))
    ensures forall p | Contains(p, hint) :: SameAt(StepOf(env, home, op, s, faults).files, s.files, p)
  {
    hide Contains, IntegrationOf, Carry, HintOf, Managed, Survivors, Apply;
    match op
    case Register(app) =>
      var plan := IntegrationOf(env, home, app).plan;
      forall p | Contains(p, hint) ensures SameAt(Carry(s.files, plan, faults, s.count).files, s.files, p) {
        RestKeeps(s.files, p, plan, faults, s.count);
      }
    case Unregister(path) =>
  }

  lemma SameQuery(home: string, hint: string, after: FileMap, before: FileMap)
    requires forall p | Contains(p, hint) :: SameAt(after, before, p)
    ensures IsRegistered(after, home, hint) <==> IsRegistered(before, home, hint)
  {
    hide Contains;
    if IsRegistered(before, home, hint) {
      var p :| p in before && Matches(Append(home, "applications"), hint, p);
      assert SameAt(after, before, p) && p in after;
    }
    if IsRegistered(after, home, hint) {
      var p :| p in after && Matches(Append(home, "applications"), hint, p);
      assert SameAt(after, before, p) && p in before;
    }
  }

  /** Where the files with the id can come from. */
  lemma StepAdds(env: Environment, home: string, op: Operation, s: State, faults: Faults, p: string)
    requires p in StepOf(env, home, op, s, faults).files
    ensures p in s.files || (op.Register? && exists w <- IntegrationOf(env, home, op.app).plan :: w.path == p)
  {
    hide Contains, IntegrationOf, Carry, HintOf, Managed, Survivors, Apply;
    match op
    case Register(app) =>
      var plan := IntegrationOf(env, home, app).plan;
      if forall w <- plan :: w.path != p {
        RestKeeps(s.files, p, plan, faults, s.count);
      }
    case Unregister(path) =>
  }

  lemma {:induction false} OthersStayAbsent(env: Environment, home: string, operations: seq<Operation>, s: State, faults: Faults, hint: string, n: nat)
    requires Apart(env, home, operations, hint, s.files) && n <= |operations|
    ensures OthersAbsent(env, operations, hint, RunOf(env, home, operations[..n], s, faults).files)
  {
    hide Contains, StepOf, OpHint, IntegrationOf;
    if n > 0 {
      OthersStayAbsent(env, home, operations, s, faults, hint, n - 1);
      assert operations[..n][..n - 1] == operations[..n - 1];
      var at, op := RunOf(env, home, operations[..n - 1], s, faults), operations[n - 1];
      forall p <- StepOf(env, home, op, at, faults).files, other <- operations | Contains(p, hint) && OpHint(env, other) != hint
        ensures !Contains(p, OpHint(env, other))
      {
        StepAdds(env, home, op, at, faults, p);
        if p !in at.files {
          assert op in operations && PlanAvoids(env, home, op, if OpHint(env, op) == hint then OpHint(env, other) else hint);
        }
      }
    }
  }

  lemma StepOfOwn(env: Environment, home: string, op: Operation, s: State, faults: Faults)
    requires home != ""
    ensures IsRegistered(StepOf(env, home, op, s, faults).files, home, OpHint(env, op))
            <==> op.Register? && Succeeds(env, home, op.app, s.files, faults, s.count)
  {
    hide IsRegistered, Unregistered, HintOf, IntegrationOf, Carry;
    match op
    case Register(app) =>
      if Succeeds(env, home, app, s.files, faults, s.count) {
        IntegrationRegisters(env, home, app, faults, s.files, s.count);
      } else {
        UnregisteredIsNotRegistered(Carry(s.files, IntegrationOf(env, home, app).plan, faults, s.count).files, home, HintOf(env, app.path));
      }
    case Unregister(path) =>
      UnregisteredIsNotRegistered(s.files, home, HintOf(env, path));
  }

  lemma LastSucceededNext(env: Environment, home: string, operations: seq<Operation>, s: State, faults: Faults, hint: string)
    requires operations != []
    ensures var n, op := |operations| - 1, operations[|operations| - 1];
            var at := RunOf(env, home, operations[..n], s, faults);
            LastSucceeded(env, home, operations, s, faults, hint)
            <==> if OpHint(env, op) == hint then op.Register? && Succeeds(env, home, op.app, at.files, faults, at.count)
                 else LastSucceeded(env, home, operations[..n], s, faults, hint)
  {
    hide OpHint, Succeeds, RunOf;
    var n, front := |operations| - 1, operations[..|operations| - 1];
    forall i | 0 <= i < n
      ensures OpHint(env, operations[n]) != hint ==>
                (LastSuccessAt(env, home, operations, s, faults, hint, i) <==> LastSuccessAt(env, home, front, s, faults, hint, i))
    {
      assert front[..i] == operations[..i];
    }
    if OpHint(env, operations[n]) == hint {
      assert forall i | 0 <= i < n :: !LastSuccessAt(env, home, operations, s, faults, hint, i);
      assert LastSucceeded(env, home, operations, s, faults, hint) <==> LastSuccessAt(env, home, operations, s, faults, hint, n);
    } else {
      assert !LastSuccessAt(env, home, operations, s, faults, hint, n);
    }
  }

  /** Over every run, with every choice of faults, the query for an id is true exactly when the
      last operation with it is a registration that succeeded. */
  lemma {:induction false} QueryAfterRun(env: Environment, home: string, operations: seq<Operation>, s: State, faults: Faults, hint: string)
    requires home != "" && Apart(env, home, operations, hint, s.files)
    ensures IsRegistered(RunOf(env, home, operations, s, faults).files, home, hint)
            <==> LastSucceeded(env, home, operations, s, faults, hint)
  {
    hide IsRegistered, StepOf, OpHint, Contains, Succeeds, PlanAvoids, LastSucceeded;
    if operations == [] {
      NothingRegistered(home, hint, s.files);
      assert !LastSucceeded(env, home, operations, s, faults, hint) by { NoOperations(env, home, s, faults, hint); }
    } else {
      var n := |operations| - 1;
      var front, op := operations[..n], operations[n];
      QueryAfterRun(env, home, front, s, faults, hint);
      LastSucceededNext(env, home, operations, s, faults, hint);
      var at := RunOf(env, home, front, s, faults);
      if OpHint(env, op) == hint {
        StepOfOwn(env, home, op, at, faults);
      } else {
        OthersStayAbsent(env, home, operations, s, faults, hint, n);
        StepOfOther(env, home, op, at, faults, hint);
        SameQuery(home, hint, StepOf(env, home, op, at, faults).files, at.files);
      }
    }
  }

  lemma NothingRegistered(home: string, hint: string, files: FileMap)
    requires forall p <- files :: !Contains(p, hint)
    ensures !IsRegistered(files, home, hint)
  {
  }

  lemma NoOperations(env: Environment, home: string, s: State, faults: Faults, hint: string)
    ensures !LastSucceeded(env, home, [], s, faults, hint)
  {
  }
}
