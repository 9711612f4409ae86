/** The part of the file system that the library writes to: regular files by their path. */
module Files {
  import opened Payload

  type FileMap = map<string, Bytes>

  /** Who writes: extractTo, deployDesktopEntry, which also sets the permissions of its file, or
      deployApplicationIcon, which catches the errors of saving the icon. */
  datatype Writer = EXTRACTION | DESKTOP_FILE | SAVED_ICON

  datatype Write = Write(path: string, data: Bytes, writer: Writer)

  function Apply(files: FileMap, plan: seq<Write>): FileMap {
    if plan == [] then files
    else Apply(files, plan[..|plan| - 1])[plan[|plan| - 1].path := plan[|plan| - 1].data]
  }

  ghost predicate SameAt(after: FileMap, before: FileMap, path: string) {
    (path in after <==> path in before) && (path in before ==> after[path] == before[path])
  }

  lemma {:induction false} ApplyConcat(files: FileMap, a: seq<Write>, b: seq<Write>)
    ensures Apply(files, a + b) == Apply(Apply(files, a), b)
  {
    if b == [] {
      assert a + b == a;
    } else {
      ApplyConcat(files, a, b[..|b| - 1]);
      assert (a + b)[..|a + b| - 1] == a + b[..|b| - 1];
    }
  }

  /** A plan touches the paths it names, and nothing else. */
  lemma {:induction false} ApplyTouches(files: FileMap, plan: seq<Write>, path: string)
    ensures path in Apply(files, plan) <==> path in files || exists i :: 0 <= i < |plan| && plan[i].path == path
    ensures (forall w <- plan :: w.path != path) && path in files ==> Apply(files, plan)[path] == files[path]
  {
    if plan != [] {
      ApplyTouches(files, plan[..|plan| - 1], path);
      assert plan == plan[..|plan| - 1] + [plan[|plan| - 1]];
    }
  }

  // Writes that fail, each in its own way

  /** How a write ends: as it should, with a parent directory that cannot be created, with a
      file that cannot be opened, with a file that got only a part of the data, or with
      permissions that cannot be set. */
  datatype Fault = NONE | NO_DIRECTORY | NOT_OPENED | CUT_SHORT(kept: nat) | NO_PERMISSIONS

  /** What a write leaves of itself. */
  function Surviving(w: Write, fault: Fault): seq<Write> {
    match fault
    case NONE => [w]
    case NO_PERMISSIONS => [w]
    case CUT_SHORT(kept) => [if kept < |w.data| then w.(data := w.data[..kept]) else w]
    case NO_DIRECTORY => []
    case NOT_OPENED => []
  }

  /** Whether the writer ends with an exception. Streams do not raise any, and setting the
      permissions of a file needs the file. */
  predicate Raises(files: FileMap, w: Write, fault: Fault) {
    match w.writer
    case EXTRACTION => fault == NO_DIRECTORY
    case SAVED_ICON => false
    case DESKTOP_FILE =>
      fault == NO_DIRECTORY || fault == NO_PERMISSIONS || (fault == NOT_OPENED && w.path !in files)
  }

  /** The n-th write of a file system ends as faults(n). */
  type Faults = nat -> Fault

  datatype Progress = Progress(files: FileMap, count: nat, raised: bool)

  /** Carrying out a plan up to the first exception. */
  function Carry(files: FileMap, plan: seq<Write>, faults: Faults, count: nat): Progress
    decreases |plan|
  {
    if plan == [] then Progress(files, count, false)
    else
      var after := Apply(files, Surviving(plan[0], faults(count)));
      if Raises(files, plan[0], faults(count)) then Progress(after, count + 1, true)
      else Carry(after, plan[1..], faults, count + 1)
  }

  /** The writes of the plan that happen, with the data that they leave. */
  function Survivors(files: FileMap, plan: seq<Write>, faults: Faults, count: nat): seq<Write>
    decreases |plan|
  {
    if plan == [] then []
    else
      var survived := Surviving(plan[0], faults(count));
      if Raises(files, plan[0], faults(count)) then survived
      else survived + Survivors(Apply(files, survived), plan[1..], faults, count + 1)
  }

  /** Each of them is a write of the plan, with its data or the front of it. */
  lemma {:induction false} SurvivorsAreWrites(files: FileMap, plan: seq<Write>, faults: Faults, count: nat, s: Write)
    requires s in Survivors(files, plan, faults, count)
    ensures exists w <- plan :: s.path == w.path && s.data <= w.data
    decreases |plan|
  {
    hide Raises, Apply;
    var survived := Surviving(plan[0], faults(count));
    if s !in survived {
      SurvivorsAreWrites(Apply(files, survived), plan[1..], faults, count + 1, s);
    }
  }

  lemma {:induction false} CarryIsApply(files: FileMap, plan: seq<Write>, faults: Faults, count: nat)
    ensures Carry(files, plan, faults, count).files == Apply(files, Survivors(files, plan, faults, count))
    decreases |plan|
  {
    hide Raises, Apply, Surviving;
    if plan == [] {
      NothingApplied(files);
    } else {
      var survived := Surviving(plan[0], faults(count));
      CarryIsApply(Apply(files, survived), plan[1..], faults, count + 1);
      ApplyConcat(files, survived, Survivors(Apply(files, survived), plan[1..], faults, count + 1));
    }
  }

  lemma NothingApplied(files: FileMap)
    ensures Apply(files, []) == files
  {
  }

  /** Without faults the whole plan is carried out. */
  lemma {:induction false} FaultlessIsApply(files: FileMap, plan: seq<Write>, faults: Faults, count: nat)
    requires forall n :: faults(n) == NONE
    ensures Carry(files, plan, faults, count) == Progress(Apply(files, plan), count + |plan|, false)
    decreases |plan|
  {
    hide Apply;
    if plan == [] {
      NothingApplied(files);
    } else {
      assert plan == [plan[0]] + plan[1..];
      ApplyConcat(files, [plan[0]], plan[1..]);
      FaultlessIsApply(Apply(files, [plan[0]]), plan[1..], faults, count + 1);
    }
  }

  /** Saving an icon raises nothing, so its faults alone do not end a plan. */
  lemma {:induction false} IconFaultsRaiseNothing(files: FileMap, plan: seq<Write>, faults: Faults, count: nat)
    requires forall i | 0 <= i < |plan| :: plan[i].writer == SAVED_ICON || faults(count + i) == NONE
    ensures !Carry(files, plan, faults, count).raised
    decreases |plan|
  {
    if plan != [] {
      var rest := plan[1..];
      forall i | 0 <= i < |rest| ensures rest[i].writer == SAVED_ICON || faults(count + 1 + i) == NONE {
        assert rest[i] == plan[i + 1];
      }
      IconFaultsRaiseNothing(Apply(files, Surviving(plan[0], faults(count))), rest, faults, count + 1);
    }
  }

  // When a plan is carried out whole

  /** The fault leaves the write whole and does not end the plan. */
  predicate Unharmed(w: Write, fault: Fault) {
    Surviving(w, fault) == [w] && !(w.writer == DESKTOP_FILE && fault == NO_PERMISSIONS)
  }

  ghost predicate AllThere(files: FileMap, plan: seq<Write>) {
    forall w <- plan :: w.path in files && files[w.path] == w.data
  }

  /** The plan writes each path once, and none that is there already. */
  ghost predicate Fresh(files: FileMap, plan: seq<Write>) {
    && (forall i, j | 0 <= i < j < |plan| :: plan[i].path != plan[j].path)
    && (forall w <- plan :: w.path !in files)
  }

  /** A fresh plan ends without an exception and leaves all its data if and only if each of its
      writes is unharmed. */
  lemma {:induction false} WholeExactly(files: FileMap, plan: seq<Write>, faults: Faults, count: nat)
    requires Fresh(files, plan)
    ensures var p := Carry(files, plan, faults, count);
            !p.raised && AllThere(p.files, plan)
            <==> forall i | 0 <= i < |plan| :: Unharmed(plan[i], faults(count + i))
    decreases |plan|
  {
    hide Apply, Surviving, Fresh, AllThere, Unharmed, Raises;
    if plan != [] {
      var after := Apply(files, Surviving(plan[0], faults(count)));
      FreshRest(files, plan, faults(count));
      WholeExactly(after, plan[1..], faults, count + 1);
      RestUnharmed(plan, faults, count);
      SurvivingIs(files, plan[0], faults(count));
      RestKeeps(after, plan[0].path, plan[1..], faults, count + 1);
      ThereFirst(Carry(after, plan[1..], faults, count + 1).files, after, plan);
    } else {
      assert AllThere(files, plan) by { NothingThere(files); }
    }
  }

  lemma NothingThere(files: FileMap)
    ensures AllThere(files, [])
  {
  }

  lemma FreshRest(files: FileMap, plan: seq<Write>, fault: Fault)
    requires Fresh(files, plan) && plan != []
    ensures plan[0].path !in files && forall w <- plan[1..] :: w.path != plan[0].path
    ensures Fresh(Apply(files, Surviving(plan[0], fault)), plan[1..])
  {
    hide Apply, Surviving;
    assert plan[0] in plan;
    SurvivingIs(files, plan[0], fault);
    var rest := plan[1..];
    forall w <- rest ensures w.path != plan[0].path && w.path !in Apply(files, Surviving(plan[0], fault)) {
      var i :| 0 <= i < |rest| && rest[i] == w;
      assert plan[i + 1] == w && w in plan;
      assert SameAt(Apply(files, Surviving(plan[0], fault)), files, w.path);
    }
    forall i, j | 0 <= i < j < |rest| ensures rest[i].path != rest[j].path {
      assert rest[i] == plan[i + 1] && rest[j] == plan[j + 1];
    }
  }

  lemma ThereFirst(files: FileMap, after: FileMap, plan: seq<Write>)
    requires plan != [] && SameAt(files, after, plan[0].path)
    ensures AllThere(files, plan) <==> AllThere(after, [plan[0]]) && AllThere(files, plan[1..])
  {
    assert plan == [plan[0]] + plan[1..];
    assert plan[0] in plan && plan[0] in [plan[0]];
  }

  lemma SurvivingIs(files: FileMap, w: Write, fault: Fault)
    requires w.path !in files
    ensures forall p | p != w.path :: SameAt(Apply(files, Surviving(w, fault)), files, p)
    ensures Unharmed(w, fault)
            <==> !Raises(files, w, fault) && AllThere(Apply(files, Surviving(w, fault)), [w])
  {
    NothingApplied(files);
    forall s: Write ensures Apply(files, [s]) == files[s.path := s.data] {
      OneWrite(files, s);
    }
  }

  lemma RestUnharmed(plan: seq<Write>, faults: Faults, count: nat)
    requires plan != []
    ensures (forall i | 0 <= i < |plan| :: Unharmed(plan[i], faults(count + i)))
            <==> && Unharmed(plan[0], faults(count))
                 && forall i | 0 <= i < |plan[1..]| :: Unharmed(plan[1..][i], faults(count + 1 + i))
  {
    hide Unharmed;
    if && Unharmed(plan[0], faults(count))
       && forall i | 0 <= i < |plan[1..]| :: Unharmed(plan[1..][i], faults(count + 1 + i)) {
      forall i | 0 <= i < |plan| ensures Unharmed(plan[i], faults(count + i)) {
        if i > 0 {
          assert plan[i] == plan[1..][i - 1];
        }
      }
    }
    if forall i | 0 <= i < |plan| :: Unharmed(plan[i], faults(count + i)) {
      forall i | 0 <= i < |plan[1..]| ensures Unharmed(plan[1..][i], faults(count + 1 + i)) {
        assert plan[1..][i] == plan[i + 1];
      }
    }
  }

  lemma RestKeeps(files: FileMap, path: string, plan: seq<Write>, faults: Faults, count: nat)
    requires forall w <- plan :: w.path != path
    ensures SameAt(Carry(files, plan, faults, count).files, files, path)
  {
    hide Apply, Carry, Survivors;
    var survivors := Survivors(files, plan, faults, count);
    CarryIsApply(files, plan, faults, count);
    forall s <- survivors ensures s.path != path {
      SurvivorsAreWrites(files, plan, faults, count, s);
    }
    ApplyTouches(files, survivors, path);
  }

  lemma OneWrite(files: FileMap, w: Write)
    ensures Apply(files, [w]) == files[w.path := w.data]
    ensures Apply(files, []) == files
  {
    assert [w][..0] == [];
  }

  /** Two plans in turn are one plan. */
  lemma {:induction false} CarryConcat(files: FileMap, a: seq<Write>, b: seq<Write>, faults: Faults, count: nat)
    ensures var first := Carry(files, a, faults, count);
            Carry(files, a + b, faults, count) == if first.raised then first else Carry(first.files, b, faults, first.count)
    decreases |a|
  {
    hide Raises, Apply, Surviving;
    if a == [] {
      assert a + b == b;
    } else {
      assert (a + b)[0] == a[0] && (a + b)[1..] == a[1..] + b;
      CarryConcat(Apply(files, Surviving(a[0], faults(count))), a[1..], b, faults, count + 1);
    }
  }

  lemma NothingCarried(files: FileMap, faults: Faults, count: nat)
    ensures Carry(files, [], faults, count) == Progress(files, count, false)
  {
  }

  lemma CarryOne(files: FileMap, w: Write, faults: Faults, count: nat)
    ensures Carry(files, [w], faults, count)
            == Progress(Apply(files, Surviving(w, faults(count))), count + 1, Raises(files, w, faults(count)))
  {
    assert [w][1..] == [];
  }

  /** No write removes a file. */
  lemma CarryKeeps(files: FileMap, plan: seq<Write>, faults: Faults, count: nat, path: string)
    requires path in files
    ensures path in Carry(files, plan, faults, count).files
  {
    CarryIsApply(files, plan, faults, count);
    ApplyTouches(files, Survivors(files, plan, faults, count), path);
  }

  class FileSystem {
    var files: FileMap
    var count: nat  // of the writes so far
    const faults: Faults

    constructor (files: FileMap, faults: Faults)
      ensures this.files == files && this.count == 0 && this.faults == faults
    {
      this.files := files;
      this.count := 0;
      this.faults := faults;
    }

    /** create_directories for the parent, the file, and for a desktop file its permissions. */
    method Put(path: string, data: Bytes, writer: Writer) returns (raised: bool)
      modifies this
      ensures Progress(files, count, raised) == Carry(old(files), [Write(path, data, writer)], faults, old(count))
    {
      var fault := faults(count);
      CarryOne(files, Write(path, data, writer), faults, count);
      count := count + 1;
      if fault == NO_DIRECTORY {
        return writer != SAVED_ICON;
      }
      if fault != NOT_OPENED {
        files := files[path := if fault.CUT_SHORT? && fault.kept < |data| then data[..fault.kept] else data];
      }
      raised := writer == DESKTOP_FILE && (path !in files || fault == NO_PERMISSIONS);
    }

    method Remove(path: string)
      modifies this`files
      ensures files == old(files) - {path}
    {
      files := files - {path};
    }
  }
}
