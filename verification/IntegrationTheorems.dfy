/** Transactions: what registering and unregistering an AppImage leaves behind. */
module IntegrationTheorems {
  import opened Payload
  import opened Files
  import opened DeployPaths
  import opened IntegrationManager
  import opened PayloadEntriesCache
  import opened ResourcesExtractor
  import opened ExtractToTheorems
  import Hashlib

  /** No file in a managed directory carries the id. */
  predicate NoneOwned(files: FileMap, home: string, hint: string) {
    forall p <- files :: !Owned(home, hint, p)
  }

  lemma UnregisterIsIdentityExactly(files: FileMap, home: string, hint: string)
    ensures Unregistered(files, home, hint) == files <==> NoneOwned(files, home, hint)
  {
    hide Owned;
    if Unregistered(files, home, hint) == files {
      assert forall p <- files :: p in Unregistered(files, home, hint);
    }
  }

  /** After unregistering, the query says no. */
  lemma UnregisteredIsNotRegistered(files: FileMap, home: string, hint: string)
    requires home != ""
    ensures !IsRegistered(Unregistered(files, home, hint), home, hint)
  {
    hide Append, Slash, Contains;
    DirectoriesAre(home);
  }

  /** What registerAppImage makes of the files. */
  ghost function Registered(env: Environment, home: string, app: AppImage, before: FileMap, faults: Faults, count: nat): FileMap {
    var files := Carry(before, IntegrationOf(env, home, app).plan, faults, count).files;
    if Succeeds(env, home, app, before, faults, count) then files else Unregistered(files, home, HintOf(env, app.path))
  }

  ghost predicate Succeeds(env: Environment, home: string, app: AppImage, before: FileMap, faults: Faults, count: nat) {
    var o := IntegrationOf(env, home, app);
    o.complete && !Carry(before, o.plan, faults, count).raised
  }

  /** For every choice of writes that fail, files without the id are untouched; a registration
      that succeeds is seen by the query; and with managed icons unregistering undoes it, which
      a registration that fails has done itself. */
  lemma RegistrationIsTransactional(env: Environment, home: string, app: AppImage, before: FileMap, faults: Faults, count: nat)
    requires home != ""
    ensures var after, hint := Registered(env, home, app, before, faults, count), HintOf(env, app.path);
            && OthersUntouched(after, before, hint)
            && (Succeeds(env, home, app, before, faults, count) ==> IsRegistered(after, home, hint))
            && (IconsManaged(env, app) ==> Unregistered(after, home, hint) == Unregistered(before, home, hint))
            && (IconsManaged(env, app) && !Succeeds(env, home, app, before, faults, count) ==>
                  after == Unregistered(before, home, hint))
  {
    hide IsRegistered, Unregistered, OthersUntouched, HintOf, IntegrationOf, Carry, IconsManaged, AllWithId, AllManaged;
    var plan, hint := IntegrationOf(env, home, app).plan, HintOf(env, app.path);
    IntegrationIsManagedExactly(env, home, app);
    PlanLeavesOthers(before, plan, faults, count, home, hint);
    if Succeeds(env, home, app, before, faults, count) {
      IntegrationRegisters(env, home, app, faults, before, count);
    } else {
      UnregisteredLeavesOthers(Carry(before, plan, faults, count).files, before, home, hint);
    }
  }

  /** When nothing but saving the fallback icon fails, the registration succeeds without it. */
  lemma IconFaultsAreIgnored(env: Environment, home: string, app: AppImage, before: FileMap, faults: Faults, count: nat)
    requires var o := IntegrationOf(env, home, app);
             o.complete && forall i | 0 <= i < |o.plan| :: o.plan[i].writer == SAVED_ICON || faults(count + i) == NONE
    ensures Succeeds(env, home, app, before, faults, count)
  {
    hide IntegrationOf;
    IconFaultsRaiseNothing(before, IntegrationOf(env, home, app).plan, faults, count);
  }

  /** The icons that are deployed: those of the name in the desktop entry. */
  ghost function DeployedIcons(env: Environment, app: AppImage): set<string>
    requires EntryOf(env, app.payload).Some?
  {
    IconPaths(app.payload, EntryOf(env, app.payload).value.icon)
  }

  /** Icons below usr/share/icons/ are managed. Directory entries of the payload do not matter
      unless they have the name of the icon. */
  lemma IconsOfShareAreManaged(env: Environment, app: AppImage)
    requires EntryOf(env, app.payload).Some?
    requires forall p <- DeployedIcons(env, app) :: USR_SHARE_ICONS <= p
    ensures IconsManaged(env, app)
  {
    hide EntryOf, IconPaths, ManagedEntry, IsWritten, IndexOf, AllResolve;
    forall p <- DeployedIcons(env, app) ensures ManagedEntry(p) {
      IconEntryIsManaged(p);
    }
  }

  // Registering and unregistering again

  ghost function RoundTrip(env: Environment, home: string, app: AppImage, before: FileMap, faults: Faults, count: nat): FileMap {
    Unregistered(Registered(env, home, app, before, faults, count), home, HintOf(env, app.path))
  }

  const NO_FAULTS: Faults := n => NONE

  /** The round trip is the identity on all files without owned ones, whatever writes fail on
      the way, if and only if the written icons come from managed entries. */
  lemma RoundTripExactly(env: Environment, home: string, app: AppImage)
    requires home != "" && app.Readable()
    ensures (forall before, faults: Faults, count: nat | NoneOwned(before, home, HintOf(env, app.path)) ::
               RoundTrip(env, home, app, before, faults, count) == before)
            <==> IconsManaged(env, app)
    ensures (forall before | NoneOwned(before, home, HintOf(env, app.path)) ::
               RoundTrip(env, home, app, before, NO_FAULTS, 0) == before)
            <==> IconsManaged(env, app)
  {
    hide IsRegistered, Unregistered, NoneOwned, HintOf, Registered, IconsManaged;
    var hint := HintOf(env, app.path);
    if IconsManaged(env, app) {
      forall before, faults: Faults, count: nat | NoneOwned(before, home, hint)
        ensures RoundTrip(env, home, app, before, faults, count) == before
      {
        RegistrationIsTransactional(env, home, app, before, faults, count);
        UnregisterIsIdentityExactly(before, home, hint);
      }
    } else {
      IntegrationIsManagedExactly(env, home, app);
      var w :| w in IntegrationOf(env, home, app).plan && !Managed(home, w.path);
      UnmanagedWriteStays(env, home, app, w);
      NothingOwned(home, hint);
      assert RoundTrip(env, home, app, map[], NO_FAULTS, 0) != map[];
    }
  }

  lemma NothingOwned(home: string, hint: string)
    ensures NoneOwned(map[], home, hint)
  {
  }

  lemma UnmanagedWriteStays(env: Environment, home: string, app: AppImage, w: Write)
    requires w in IntegrationOf(env, home, app).plan && !Managed(home, w.path)
    ensures w.path in RoundTrip(env, home, app, map[], NO_FAULTS, 0)
  {
    hide IntegrationOf, HintOf, Managed, Contains, Carry, Apply;
    var plan := IntegrationOf(env, home, app).plan;
    FaultlessIsApply(map[], plan, NO_FAULTS, 0);
    ApplyTouches(map[], plan, w.path);
  }

  /** Registering and unregistering again leaves exactly the files of the round trip. */
  method RegisterThenUnregister(manager: IntegrationManager, app: AppImage, fs: FileSystem) returns (error: Option<Error>)
    requires manager.home != "" && app.Readable()
    modifies fs
    ensures fs.files == RoundTrip(manager.env, manager.home, app, old(fs.files), fs.faults, old(fs.count))
    ensures error.None? <==> Succeeds(manager.env, manager.home, app, old(fs.files), fs.faults, old(fs.count))
    ensures IconsManaged(manager.env, app) ==>
              var hint := HintOf(manager.env, app.path);
              && fs.files == Unregistered(old(fs.files), manager.home, hint)
              && (NoneOwned(old(fs.files), manager.home, hint) ==> fs.files == old(fs.files))
  {
    hide IsRegistered, Unregistered, OthersUntouched, HintOf, IntegrationOf, Carry, IconsManaged;
    RegistrationIsTransactional(manager.env, manager.home, app, fs.files, fs.faults, fs.count);
    UnregisterIsIdentityExactly(fs.files, manager.home, HintOf(manager.env, app.path));
    error := manager.RegisterAppImage(app, fs);
    manager.UnregisterAppImage(app.path, fs);
  }

  /** A registration either succeeds, and is then seen by the query, or, with managed icons,
      changes nothing. */
  method RegisterAtomically(manager: IntegrationManager, app: AppImage, fs: FileSystem) returns (registered: bool)
    requires manager.home != "" && app.Readable()
    requires NoneOwned(fs.files, manager.home, HintOf(manager.env, app.path))
    modifies fs
    ensures registered <==> IsRegistered(fs.files, manager.home, HintOf(manager.env, app.path))
    ensures registered <==> Succeeds(manager.env, manager.home, app, old(fs.files), fs.faults, old(fs.count))
    ensures !registered && IconsManaged(manager.env, app) ==> fs.files == old(fs.files)
  {
    hide IsRegistered, Unregistered, OthersUntouched, HintOf, IntegrationOf, Carry, IconsManaged;
    var hint := HintOf(manager.env, app.path);
    UnregisterIsIdentityExactly(fs.files, manager.home, hint);
    ghost var carried := Carry(fs.files, IntegrationOf(manager.env, manager.home, app).plan, fs.faults, fs.count);
    UnregisteredIsNotRegistered(carried.files, manager.home, hint);
    RegistrationIsTransactional(manager.env, manager.home, app, fs.files, fs.faults, fs.count);
    var error := manager.RegisterAppImage(app, fs);
    registered := manager.IsARegisteredAppImage(app.path, fs);
  }

  // An icon that stays

  const MISPLACED := "opt/usr/share/icons/a.png"

  /** An AppImage with a desktop file and an icon below opt. */
  const APP := AppImage("/a.AppImage", [Entry("a.desktop", REGULAR, "", "d"), Entry(MISPLACED, REGULAR, "", "i")])

  const ENV := Environment(_ => Some(DesktopEntry(Some("A"), "a", false, Some("e"))), _ => None, p => p)

  /** isIconFile looks for its directory anywhere in the path. An icon below another directory
      is deployed outside the managed ones, and unregistering leaves it behind. */
  lemma MisplacedIconStays(home: string)
    requires home != ""
    ensures APP.Readable() && IntegrationOf(ENV, home, APP).complete && !IconsManaged(ENV, APP)
    ensures NoneOwned(map[], home, HintOf(ENV, APP.path))
    ensures DeployPath(home, Hashlib.IdOf(APP.path, ENV.absolute), MISPLACED)
            in RoundTrip(ENV, home, APP, map[], NO_FAULTS, 0)
  {
    hide DeployPath, Managed, ManagedEntry, IconPaths, MimePaths, EntryOf, RoundTrip, DesktopFilePath;
    hide Hashlib.IdOf, IndexOf, IsWritten, AllResolve, ExtractionOf, DeployMap, WritesTo;
    var id := Hashlib.IdOf(APP.path, ENV.absolute);
    var path := DeployPath(home, id, MISPLACED);
    AppIsReadable();
    AppPaths();
    AppEntry();
    MisplacedIsWritten();
    MisplacedIcon();
    DeploymentWritesExactly(APP.payload, home, id, {MISPLACED}, path);
    var w := WriteTo(ExtractionOf(APP.payload, DeployMap(home, id, {MISPLACED})).plan, path);
    CompleteExactly(APP.payload, DeployMap(home, id, {MISPLACED}));
    CompleteExactly(APP.payload, DeployMap(home, id, {}));
    KeysOf(home, id);
    NoTargets(IndexOf(APP.payload));
    DeployedIntoManagedExactly(home, id, MISPLACED);
    UnmanagedWriteStays(ENV, home, APP, w);
  }

  const FIRST_NOT_OPENED: Faults := n => if n == 0 then NOT_OPENED else NONE
  const SECOND_CUT_SHORT: Faults := n => if n == 1 then CUT_SHORT(0) else NONE

  /** Streams that fail raise nothing: this registration succeeds without its icon, and also
      with an empty desktop file. */
  lemma LossIsSilent(home: string)
    requires home != ""
    ensures var id := Hashlib.IdOf(APP.path, ENV.absolute);
            var icon, desktop := DeployPath(home, id, MISPLACED), DesktopFilePath(home, id, "A");
            && icon != desktop
            && Registered(ENV, home, APP, map[], NO_FAULTS, 0) == map[icon := "i", desktop := "e"]
            && Succeeds(ENV, home, APP, map[], FIRST_NOT_OPENED, 0)
            && Registered(ENV, home, APP, map[], FIRST_NOT_OPENED, 0) == map[desktop := "e"]
            && Succeeds(ENV, home, APP, map[], SECOND_CUT_SHORT, 0)
            && Registered(ENV, home, APP, map[], SECOND_CUT_SHORT, 0) == map[icon := "i", desktop := ""]
  {
    hide DeployPath, DesktopFilePath, Hashlib.IdOf, IntegrationOf, Unregistered, Apply, Carry;
    forall files: FileMap, w: Write ensures Apply(files, [w]) == files[w.path := w.data] {
      OneWrite(files, w);
    }
    NothingApplied(map[]);
    var id := Hashlib.IdOf(APP.path, ENV.absolute);
    var icon := Write(DeployPath(home, id, MISPLACED), "i", EXTRACTION);
    var desktop := Write(DesktopFilePath(home, id, "A"), "e", DESKTOP_FILE);
    assert icon.path != desktop.path by {
      hide Managed, ManagedEntry, IsIconFile;
      MisplacedIcon();
      DeployedIntoManagedExactly(home, id, MISPLACED);
      DesktopFileIsManaged(home, id, "A");
    }
    AppPlan(home);
    CarryTwo(icon, desktop, NO_FAULTS);
    CarryTwo(icon, desktop, FIRST_NOT_OPENED);
    CarryTwo(icon, desktop, SECOND_CUT_SHORT);
  }

  /** Two writes that raise nothing. */
  lemma CarryTwo(a: Write, b: Write, faults: Faults)
    requires a.writer == EXTRACTION && faults(0) != NO_DIRECTORY
    requires b.writer == DESKTOP_FILE && faults(1) in {NONE, CUT_SHORT(0)}
    ensures var p := Carry(map[], [a, b], faults, 0);
            && !p.raised
            && p.files == Apply(Apply(map[], Surviving(a, faults(0))), Surviving(b, faults(1)))
  {
    hide Apply, Surviving;
    assert [a, b] == [a] + [b];
    CarryConcat(map[], [a], [b], faults, 0);
    CarryOne(map[], a, faults, 0);
    CarryOne(Carry(map[], [a], faults, 0).files, b, faults, 1);
  }

  lemma AppPlan(home: string)
    requires home != ""
    ensures var id := Hashlib.IdOf(APP.path, ENV.absolute);
            IntegrationOf(ENV, home, APP)
            == Outcome([Write(DeployPath(home, id, MISPLACED), "i", EXTRACTION), Write(DesktopFilePath(home, id, "A"), "e", DESKTOP_FILE)], true)
  {
    hide DeployPath, DesktopFilePath, Hashlib.IdOf, IconPaths, MimePaths, EntryOf, ExtractionOf;
    var id := Hashlib.IdOf(APP.path, ENV.absolute);
    AppPaths();
    AppEntry();
    AppIcon(DeployPath(home, id, MISPLACED));
    AppMime();
    assert DeployMap(home, id, {MISPLACED}) == map[MISPLACED := DeployPath(home, id, MISPLACED)];
    assert DeployMap(home, id, {}) == map[];
  }

  lemma AppIcon(path: string)
    ensures ExtractionOf(APP.payload, map[MISPLACED := path]) == Outcome([Write(path, "i", EXTRACTION)], true)
  {
    hide IsChosen, IndexOf, ExtractPlan, AllResolve;
    var ix, targets := IndexOf(APP.payload), map[MISPLACED := path];
    MisplacedIsWritten();
    assert targets.Keys == {MISPLACED};
    MisplacedIsChosen(path);
    ChosenIsUnique(ix, targets, targets, Chosen(ix, targets));
    AppIconPlan(path);
  }

  lemma AppIconPlan(path: string)
    ensures ExtractPlan(APP.payload, map[MISPLACED := path]) == [Write(path, "i", EXTRACTION)]
  {
    var front := APP.payload[..1];
    assert front == [Entry("a.desktop", REGULAR, "", "d")] && front[..0] == [];
    assert ExtractPlan(front, map[MISPLACED := path]) == [];
  }

  lemma MisplacedIsChosen(path: string)
    ensures IsChosen(IndexOf(APP.payload), map[MISPLACED := path], map[MISPLACED := path])
  {
    var ix, targets := IndexOf(APP.payload), map[MISPLACED := path];
    MisplacedIsWritten();
    AppTypes();
    assert targets.Keys == {MISPLACED};
    WinnerGives(ix, targets, MISPLACED, MISPLACED);
  }

  lemma AppMime()
    ensures ExtractionOf(APP.payload, map[]) == Outcome([], true)
  {
    var ix := IndexOf(APP.payload);
    NoneChosen(ix);
    ChosenIsUnique(ix, map[], map[], Chosen(ix, map[]));
    var front := APP.payload[..1];
    assert front[..0] == [];
    assert ExtractPlan(front, map[]) == [];
  }

  lemma WriteTo(plan: seq<Write>, path: string) returns (w: Write)
    requires WritesTo(plan, path)
    ensures w in plan && w.path == path
  {
    w :| w in plan && w.path == path;
  }

  lemma CompleteExactly(payload: seq<Entry>, targets: map<string, string>)
    ensures ExtractionOf(payload, targets).complete <==> AllResolve(IndexOf(payload), targets.Keys)
  {
  }

  lemma KeysOf(home: string, id: string)
    ensures DeployMap(home, id, {MISPLACED}).Keys == {MISPLACED} && DeployMap(home, id, {}).Keys == {}
  {
  }

  lemma NoTargets(ix: Index)
    ensures AllResolve(ix, {})
  {
  }

  lemma AppTypes()
    ensures TypesOf(APP.payload) == map["a.desktop" := REGULAR, MISPLACED := REGULAR] && LinksOf(APP.payload) == map[]
  {
    var front := APP.payload[..1];
    assert front == [Entry("a.desktop", REGULAR, "", "d")] && front[..0] == [];
    assert TypesOf(front) == map["a.desktop" := REGULAR] && LinksOf(front) == map[];
  }

  lemma AppIsReadable()
    ensures APP.Readable()
  {
    AppTypes();
  }

  lemma AppPaths()
    ensures IconPaths(APP.payload, "a") == {MISPLACED} && MimePaths(APP.payload) == {}
  {
    hide Contains;
    AppTypes();
    MisplacedIsIcon();
    ContainsPart("opt/usr/sh", "a", "re/icons/a.png");
    assert "opt/usr/sh" + "a" + "re/icons/a.png" == MISPLACED;
    ContainsNothingLonger("a.desktop", "usr/share/icons");
    assert MISPLACED[0] == 'o' && "a.desktop"[0] == 'a' && USR_SHARE_MIME[0] == 'u';
  }

  lemma ContainsNothingLonger(s: string, sub: string)
    requires |s| < |sub|
    ensures !Contains(s, sub)
  {
  }

  lemma AppEntry()
    ensures EntryOf(ENV, APP.payload) == Some(DesktopEntry(Some("A"), "a", false, Some("e")))
  {
    hide Contains;
    AppTypes();
    ContainsPart("a", ".desktop", "");
    assert "a" + ".desktop" + "" == "a.desktop";
    assert IsMainDesktopFile("a.desktop");
  }

  lemma MisplacedIsWritten()
    ensures AllResolve(IndexOf(APP.payload), {MISPLACED})
    ensures IsWritten(APP.payload, IndexOf(APP.payload), {MISPLACED}, MISPLACED)
  {
    AppTypes();
  }

  lemma MisplacedIcon()
    ensures IsIconFile(MISPLACED) && !ManagedEntry(MISPLACED)
  {
    hide Components, Parent, Contains, Strip, IsIconFile;
    MisplacedIsIcon();
    MisplacedParent();
    NotUsrIsKept(Components(Parent(MISPLACED)));
  }

  lemma MisplacedParent()
    ensures var components := Components(Parent(MISPLACED));
            components != [] && components[0] == "opt"
  {
    hide Components, Parent, MISPLACED;
    MisplacedIs();
    ParentOf("opt/" + "usr/share/icons/", "a.png");
    SplitComponent("opt", "usr/share/icons/");
    assert "opt" + "/" == "opt/";
  }

  lemma MisplacedIs()
    ensures MISPLACED == ("opt/" + "usr/share/icons/") + "a.png"
  {
  }

  lemma MisplacedIsIcon()
    ensures IsIconFile(MISPLACED)
  {
    hide Contains;
    ContainsPart("opt/", "usr/share/icons", "/a.png");
    assert "opt/" + "usr/share/icons" + "/a.png" == MISPLACED;
  }

  lemma NotUsrIsKept(components: seq<string>)
    requires components != [] && components[0] == "opt"
    ensures Strip(components) == components
  {
  }
}
